/** Forward and backward are one layer. The expert that the backward kernels differentiate is, value by value, the
  * one that the forward pass computes from the pool row and the weights; and what they leave (the gradient of the
  * row, of both weight matrices and of the routing weight) is its derivative. */
module LayerGradient {
  import opened Sums
  import opened PoolPipeline
  import B = KernelYBwd
  import C = ChainRule
  import R = RowReduce

  // ---------------------------------------------------------------------------
  // A linear map of dual numbers, with d flowing back through it.
  // ---------------------------------------------------------------------------

  /** Column j of row @ W.T, over the first n entries of the row. */
  function Linear(row: nat -> C.Dual, w1: (nat, nat) -> C.Dual, j: nat, n: nat): C.Dual {
    if n == 0 then C.Dual(0.0, 0.0) else C.Add(Linear(row, w1, j, n - 1), C.Times(row(n - 1), w1(j, n - 1)))
  }

  ghost function ValTerm(row: nat -> C.Dual, w1: (nat, nat) -> C.Dual, j: nat): nat -> real {
    (h: nat) => row(h).v * w1(j, h).v
  }

  ghost function ByWeight(row: nat -> C.Dual, w1: (nat, nat) -> C.Dual): (nat, nat) -> real {
    (j: nat, h: nat) => row(h).v * w1(j, h).dot
  }

  ghost function ByRow(row: nat -> C.Dual, w1: (nat, nat) -> C.Dual): (nat, nat) -> real {
    (j: nat, h: nat) => w1(j, h).v * row(h).dot
  }

  ghost function DXTerm(d: nat -> real, w1: (nat, nat) -> C.Dual, h: nat): nat -> real {
    (j: nat) => d(j) * w1(j, h).v
  }

  /** The gradient of entry h of the row: d @ W. */
  ghost function DX(d: nat -> real, w1: (nat, nat) -> C.Dual, m: nat, h: nat): real { Sum(DXTerm(d, w1, h), m) }

  ghost function RowMoves(d: nat -> real, row: nat -> C.Dual, w1: (nat, nat) -> C.Dual, m: nat): nat -> real {
    (h: nat) => DX(d, w1, m, h) * row(h).dot
  }

  /** The gradient of the weight (j, h) is d(j) times entry h of the row. */
  ghost function W1Moves(d: nat -> real, row: nat -> C.Dual, w1: (nat, nat) -> C.Dual, j: nat): nat -> real {
    (h: nat) => d(j) * row(h).v * w1(j, h).dot
  }

  ghost function W1Move(d: nat -> real, row: nat -> C.Dual, w1: (nat, nat) -> C.Dual, hidden: nat): nat -> real {
    (j: nat) => Sum(W1Moves(d, row, w1, j), hidden)
  }

  ghost function PreMove(d: nat -> real, row: nat -> C.Dual, w1: (nat, nat) -> C.Dual, hidden: nat): nat -> real {
    (j: nat) => d(j) * Linear(row, w1, j, hidden).dot
  }

  lemma LinearStep(row: nat -> C.Dual, w1: (nat, nat) -> C.Dual, j: nat, n: nat, v: real, dot: real)
    requires Linear(row, w1, j, n) == C.Dual(v, dot)
    ensures Linear(row, w1, j, n + 1) == C.Dual(v + ValTerm(row, w1, j)(n),
                                                dot + C.RowTerms(ByWeight(row, w1), j)(n) + C.RowTerms(ByRow(row, w1), j)(n))
  {
    AddTimes(C.Dual(v, dot), row(n), w1(j, n));
  }

  lemma {:induction false} LinearIs(row: nat -> C.Dual, w1: (nat, nat) -> C.Dual, j: nat, n: nat)
    ensures Linear(row, w1, j, n)
         == C.Dual(Sum(ValTerm(row, w1, j), n), Sum(C.RowTerms(ByWeight(row, w1), j), n) + Sum(C.RowTerms(ByRow(row, w1), j), n))
  {
    if n > 0 {
      LinearIs(row, w1, j, n - 1);
      var f, g, h := ValTerm(row, w1, j), C.RowTerms(ByWeight(row, w1), j), C.RowTerms(ByRow(row, w1), j);
      LinearStep(row, w1, j, n - 1, Sum(f, n - 1), Sum(g, n - 1) + Sum(h, n - 1));
    }
  }

  lemma AddTimes(p: C.Dual, a: C.Dual, b: C.Dual)
    ensures C.Add(p, C.Times(a, b)) == C.Dual(p.v + a.v * b.v, p.dot + a.v * b.dot + b.v * a.dot)
  {
    assert a.dot * b.v == b.v * a.dot;
  }

  lemma {:induction false} SumDistributes(d: nat -> real, a: (nat, nat) -> real, b: (nat, nat) -> real, r: nat -> real,
                                          hidden: nat, n: nat)
    requires forall j: nat :: j < n ==> r(j) == d(j) * (Sum(C.RowTerms(a, j), hidden) + Sum(C.RowTerms(b, j), hidden))
    ensures Sum(r, n) == Sum(C.ScaledRows(d, a, hidden), n) + Sum(C.ScaledRows(d, b, hidden), n)
  {
    if n > 0 {
      SumDistributes(d, a, b, r, hidden, n - 1);
      C.Distributes(d(n - 1), Sum(C.RowTerms(a, n - 1), hidden), Sum(C.RowTerms(b, n - 1), hidden));
    }
  }

  lemma PreMoves(d: nat -> real, row: nat -> C.Dual, w1: (nat, nat) -> C.Dual, hidden: nat, n: nat)
    ensures Sum(PreMove(d, row, w1, hidden), n)
         == Sum(C.ScaledRows(d, ByWeight(row, w1), hidden), n) + Sum(C.ScaledRows(d, ByRow(row, w1), hidden), n)
  {
    var r, a, b := PreMove(d, row, w1, hidden), ByWeight(row, w1), ByRow(row, w1);
    forall j: nat | j < n ensures r(j) == d(j) * (Sum(C.RowTerms(a, j), hidden) + Sum(C.RowTerms(b, j), hidden)) {
      LinearIs(row, w1, j, hidden);
    }
    SumDistributes(d, a, b, r, hidden, n);
  }

  ghost predicate TimesEach(c: real, f: nat -> real, r: nat -> real, n: nat) {
    forall i: nat :: i < n ==> r(i) == c * f(i)
  }

  lemma SumTimes(c: real, f: nat -> real, r: nat -> real, n: nat)
    requires TimesEach(c, f, r, n)
    ensures Sum(r, n) == c * Sum(f, n)
  {
    C.SumScaled(f, c, r, n);
  }

  lemma Regroup(a: real, b: real, c: real)
    ensures a * b * c == a * (b * c) && a * (b * c) == c * (a * b)
  {
  }

  lemma W1Row(d: nat -> real, row: nat -> C.Dual, w1: (nat, nat) -> C.Dual, hidden: nat, j: nat)
    ensures d(j) * Sum(C.RowTerms(ByWeight(row, w1), j), hidden) == Sum(W1Moves(d, row, w1, j), hidden)
  {
    var a, r := C.RowTerms(ByWeight(row, w1), j), W1Moves(d, row, w1, j);
    forall h: nat | h < hidden ensures r(h) == d(j) * a(h) {
      Regroup(d(j), row(h).v, w1(j, h).dot);
    }
    SumTimes(d(j), a, r, hidden);
  }

  lemma W1Is(d: nat -> real, row: nat -> C.Dual, w1: (nat, nat) -> C.Dual, hidden: nat, n: nat)
    ensures Sum(C.ScaledRows(d, ByWeight(row, w1), hidden), n) == Sum(W1Move(d, row, w1, hidden), n)
  {
    var f, g := C.ScaledRows(d, ByWeight(row, w1), hidden), W1Move(d, row, w1, hidden);
    forall j: nat | j < n ensures f(j) == g(j) {
      W1Row(d, row, w1, hidden, j);
    }
    SumEq(f, g, n);
  }

  lemma RowColumn(d: nat -> real, row: nat -> C.Dual, w1: (nat, nat) -> C.Dual, m: nat, h: nat)
    ensures Sum(C.ScaledCol(d, ByRow(row, w1), h), m) == row(h).dot * Sum(DXTerm(d, w1, h), m)
  {
    var a, r := DXTerm(d, w1, h), C.ScaledCol(d, ByRow(row, w1), h);
    forall j: nat | j < m ensures r(j) == row(h).dot * a(j) {
      Regroup(d(j), w1(j, h).v, row(h).dot);
    }
    SumTimes(row(h).dot, a, r, m);
  }

  lemma RowIs(d: nat -> real, row: nat -> C.Dual, w1: (nat, nat) -> C.Dual, hidden: nat, m: nat)
    ensures Sum(C.ScaledRows(d, ByRow(row, w1), hidden), m) == Sum(RowMoves(d, row, w1, m), hidden)
  {
    C.Exchange(d, ByRow(row, w1), m, hidden);
    var f, g := C.ColSums(d, ByRow(row, w1), m), RowMoves(d, row, w1, m);
    forall h: nat | h < hidden ensures f(h) == g(h) {
      RowColumn(d, row, w1, m, h);
    }
    SumEq(f, g, hidden);
  }

  /** What m columns of a linear map move, weighed by d, is what the row and the weights move, weighed by their
    * gradients. */
  lemma LinearGradient(d: nat -> real, row: nat -> C.Dual, w1: (nat, nat) -> C.Dual, hidden: nat, m: nat)
    ensures Sum(PreMove(d, row, w1, hidden), m)
         == Sum(RowMoves(d, row, w1, m), hidden) + Sum(W1Move(d, row, w1, hidden), m)
  {
    PreMoves(d, row, w1, hidden, m);
    W1Is(d, row, w1, hidden, m);
    RowIs(d, row, w1, hidden, m);
  }

  // ---------------------------------------------------------------------------
  // The layer.
  // ---------------------------------------------------------------------------

  /** One expert on one routed row, down to the row and the weights. Gates are the even columns of W1, ups the odd
    * ones. */
  datatype Layer = Layer(
    act: B.Activation,
    mask: nat -> real,
    grad: nat -> real,              // gradient of the output row
    w: C.Dual,                      // routing weight
    hidden: nat,
    inner: nat,
    row: nat -> C.Dual,
    w1: (nat, nat) -> C.Dual,       // (gate or up column, h)
    w2: (nat, nat) -> C.Dual        // (output column, activation column)
  ) {
    function Pre(j: nat): C.Dual { Linear(row, w1, j, hidden) }

    function Expert(): C.Expert {
      C.Expert(act, mask, grad, w, (i: nat) => Pre(2 * i), (i: nat) => Pre(2 * i + 1), w2)
    }
  }

  /** What the backward epilogue leaves of the n columns: the gate and up gradients, interleaved like the
    * pre-activation, and the weighted activation. */
  ghost predicate Leaves(x: C.Expert, hidden: nat, n: nat, d: nat -> real, p: nat -> real) {
    forall i: nat :: i < n ==>
      d(2 * i) == x.DGate(hidden, i) && d(2 * i + 1) == x.DUp(hidden, i) && p(i) == x.w.v * x.PostV(i)
  }

  /** The gradient of W2's (col, i) is the weighted activation times the output gradient. */
  ghost function W2Moves(p: real, grad: nat -> real, w2: (nat, nat) -> C.Dual, i: nat): nat -> real {
    (col: nat) => p * grad(col) * w2(col, i).dot
  }

  ghost function W2Move(p: nat -> real, grad: nat -> real, w2: (nat, nat) -> C.Dual, hidden: nat): nat -> real {
    (i: nat) => Sum(W2Moves(p(i), grad, w2, i), hidden)
  }

  /** f at the even and odd places. */
  ghost function Paired(f: nat -> real): nat -> real { (i: nat) => f(2 * i) + f(2 * i + 1) }

  lemma {:induction false} PairedSum(f: nat -> real, n: nat)
    ensures Sum(Paired(f), n) == Sum(f, 2 * n)
  {
    if n > 0 {
      PairedSum(f, n - 1);
      TwoMore(f, 2 * n - 2);
    }
  }

  lemma TwoMore(f: nat -> real, n: nat)
    ensures Sum(f, n + 2) == Sum(f, n) + f(n) + f(n + 1)
  {
    assert Sum(f, n + 2) == Sum(f, n + 1) + f(n + 1);
  }

  lemma {:induction false} SumAdd(f: nat -> real, g: nat -> real, r: nat -> real, n: nat)
    requires forall i: nat :: i < n ==> r(i) == f(i) + g(i)
    ensures Sum(r, n) == Sum(f, n) + Sum(g, n)
  {
    if n > 0 {
      SumAdd(f, g, r, n - 1);
    }
  }

  lemma {:induction false} W2Column(x: C.Expert, p: real, i: nat, n: nat)
    ensures p * C.W2Term(x, n, i) == Sum(W2Moves(p, x.grad, x.w2, i), n)
  {
    if n > 0 {
      W2Column(x, p, i, n - 1);
      C.Distributes(p, C.W2Term(x, n - 1, i), x.grad(n - 1) * x.w2(n - 1, i).dot);
      Regroup(p, x.grad(n - 1), x.w2(n - 1, i).dot);
    }
  }

  /** A column's contribution: its gate, its up, and its column of W2. */
  lemma ColTermOf(x: C.Expert, hidden: nat, i: nat, gate: real, up: real, p: real)
    requires gate == x.DGate(hidden, i) && up == x.DUp(hidden, i) && p == x.w.v * x.PostV(i)
    ensures C.ColTerm(x, hidden)(i) == gate * x.gate(i).dot + up * x.up(i).dot + p * C.W2Term(x, hidden, i)
  {
  }

  lemma ColumnSplit(l: Layer, d: nat -> real, p: nat -> real, i: nat)
    requires i < l.inner && Leaves(l.Expert(), l.hidden, l.inner, d, p)
    ensures C.ColTerm(l.Expert(), l.hidden)(i)
         == Paired(PreMove(d, l.row, l.w1, l.hidden))(i) + W2Move(p, l.grad, l.w2, l.hidden)(i)
  {
    ColTermOf(l.Expert(), l.hidden, i, d(2 * i), d(2 * i + 1), p(i));
    W2Column(l.Expert(), p(i), i, l.hidden);
  }

  lemma ColumnsSplit(l: Layer, d: nat -> real, p: nat -> real)
    requires Leaves(l.Expert(), l.hidden, l.inner, d, p)
    ensures Sum(C.ColTerm(l.Expert(), l.hidden), l.inner)
         == Sum(PreMove(d, l.row, l.w1, l.hidden), 2 * l.inner) + Sum(W2Move(p, l.grad, l.w2, l.hidden), l.inner)
  {
    var f, g := Paired(PreMove(d, l.row, l.w1, l.hidden)), W2Move(p, l.grad, l.w2, l.hidden);
    var r := C.ColTerm(l.Expert(), l.hidden);
    forall i: nat | i < l.inner ensures r(i) == f(i) + g(i) {
      ColumnSplit(l, d, p, i);
    }
    SumAdd(f, g, r, l.inner);
    PairedSum(PreMove(d, l.row, l.w1, l.hidden), l.inner);
  }

  lemma ColumnMoves(l: Layer, d: nat -> real, p: nat -> real)
    requires Leaves(l.Expert(), l.hidden, l.inner, d, p)
    ensures Sum(C.ColTerm(l.Expert(), l.hidden), l.inner)
         == Sum(RowMoves(d, l.row, l.w1, 2 * l.inner), l.hidden) + Sum(W1Move(d, l.row, l.w1, l.hidden), 2 * l.inner)
            + Sum(W2Move(p, l.grad, l.w2, l.hidden), l.inner)
  {
    ColumnsSplit(l, d, p);
    LinearGradient(d, l.row, l.w1, l.hidden, 2 * l.inner);
  }

  lemma ExpertWeight(l: Layer)
    ensures l.w.dot == l.Expert().w.dot
  {
  }

  /** The loss moves by the sums of what the row, W1 and W2 contribute, and by the dot product times the movement of
    * the routing weight. */
  ghost predicate Balances(x: C.Expert, hidden: nat, n: nat, rows: nat -> real, w1: nat -> real, w2: nat -> real, m: nat,
                           weight: real)
  {
    x.Loss(hidden, n).dot == Sum(rows, hidden) + Sum(w1, m) + Sum(w2, n) + Sum(C.DotTerm(x, hidden), n) * weight
  }

  lemma Moved(x: C.Expert, hidden: nat, n: nat, rows: nat -> real, w1: nat -> real, w2: nat -> real, m: nat,
              weight: real)
    requires Sum(C.ColTerm(x, hidden), n) == Sum(rows, hidden) + Sum(w1, m) + Sum(w2, n) && weight == x.w.dot
    ensures Balances(x, hidden, n, rows, w1, w2, m, weight)
  {
    C.EpilogueIsGradient(x, hidden, n);
  }

  /** The whole layer's derivative. Along every direction in which the row, W1, W2 and the routing weight may move
    * together, the loss moves by what the backward kernels leave times each movement: the row's gradient (the
    * interleaved gate and up gradients through W1), dW1 (their outer product with the row), dW2 (the outer
    * product of the weighted activation and the output gradient) and the row's dot product. */
  lemma LayerIsDifferentiated(l: Layer, d: nat -> real, p: nat -> real)
    requires Leaves(l.Expert(), l.hidden, l.inner, d, p)
    ensures Balances(l.Expert(), l.hidden, l.inner, RowMoves(d, l.row, l.w1, 2 * l.inner), W1Move(d, l.row, l.w1, l.hidden),
                     W2Move(p, l.grad, l.w2, l.hidden), 2 * l.inner, l.w.dot)
  {
    ColumnMoves(l, d, p);
    ExpertWeight(l);
    Moved(l.Expert(), l.hidden, l.inner, RowMoves(d, l.row, l.w1, 2 * l.inner), W1Move(d, l.row, l.w1, l.hidden),
          W2Move(p, l.grad, l.w2, l.hidden), 2 * l.inner, l.w.dot);
  }

  // ---------------------------------------------------------------------------
  // It is the forward pass's expert.
  // ---------------------------------------------------------------------------

  /** The layer stands at expert e of the world on a row: the values are the world's, the movements are free. */
  ghost predicate StandsAt(l: Layer, w: World, row: seq<real>, e: nat, factor: nat -> real) {
    && l.hidden == w.hidden && l.inner == w.inner && |row| == w.hidden
    && (forall x: real :: l.act.silu(x) == w.silu(x))
    && (forall h: nat :: h < w.hidden ==> l.row(h).v == row[h])
    && (forall j: nat, h: nat :: j < 2 * w.inner && h < w.hidden ==> l.w1(j, h).v == w.w1(e, j, h))
    && (forall col: nat, i: nat :: i < w.inner ==> l.w2(col, i).v == w.w2(e, col, i))
    && (forall i: nat :: i < w.inner ==> l.mask(i) == factor(i))
  }

  lemma PreIsPre(l: Layer, w: World, row: seq<real>, e: nat, factor: nat -> real, j: nat)
    requires StandsAt(l, w, row, e, factor) && j < 2 * w.inner
    ensures l.Pre(j).v == w.Pre(row, e, j)
  {
    LinearIs(l.row, l.w1, j, l.hidden);
    SumEq(ValTerm(l.row, l.w1, j), w.RowTerm(row, e, j), w.hidden);
  }

  /** The forward pass's activation is the one that is differentiated: silu of the gate, times the up, masked. */
  lemma PostIsAct(l: Layer, w: World, row: seq<real>, e: nat, factor: nat -> real, i: nat)
    requires StandsAt(l, w, row, e, factor) && i < w.inner
    ensures l.Expert().Post(i).v == l.Expert().PostV(i) == w.Act(row, e, factor)(i)
  {
    PreIsPre(l, w, row, e, factor, 2 * i);
    PreIsPre(l, w, row, e, factor, 2 * i + 1);
    C.PostIs(l.Expert(), i);
    MaskFirst(l.mask(i), l.act.silu(l.Expert().gate(i).v), l.Expert().up(i).v);
  }

  lemma MaskFirst(d: real, s: real, u: real)
    ensures d * s * u == s * u * d
  {
  }

  lemma ThroughIs(l: Layer, w: World, row: seq<real>, e: nat, factor: nat -> real, col: nat, i: nat)
    requires StandsAt(l, w, row, e, factor) && i < w.inner
    ensures C.RowTerms(C.ValTerm(l.Expert()), col)(i) == w.Through(e, col, w.Act(row, e, factor))(i)
  {
    PostIsAct(l, w, row, e, factor, i);
    SameProduct(l.w2(col, i).v, l.Expert().PostV(i), w.Act(row, e, factor)(i));
  }

  /** And so is its output. */
  lemma RowIsExpert(l: Layer, w: World, row: seq<real>, e: nat, factor: nat -> real, col: nat)
    requires StandsAt(l, w, row, e, factor)
    ensures l.Expert().Row(col, l.inner).v == w.Expert(row, e, factor, col)
  {
    C.RowIs(l.Expert(), col, l.inner);
    var f, g := C.RowTerms(C.ValTerm(l.Expert()), col), w.Through(e, col, w.Act(row, e, factor));
    forall i: nat | i < w.inner ensures f(i) == g(i) {
      ThroughIs(l, w, row, e, factor, col, i);
    }
    SumEq(f, g, w.inner);
  }

  /** Layer l stands at the pair (n, k). */
  ghost predicate AtPair(l: Layer, w: World, grad: nat -> real, n: nat, k: nat)
    requires w.Valid()
  {
    w.topkIdx(n, k) >= 0 ==>
      && StandsAt(l, w, w.Row(n), w.topkIdx(n, k), w.mask(w.topkIdx(n, k) / w.localExperts, w.slotOf(n, k)))
      && l.w.v == w.weight(n, k) && forall col: nat :: col < w.hidden ==> l.grad(col) == grad(col)
  }

  ghost function OutTerm(w: World, n: nat): (nat, nat) -> real {
    (col: nat, k: nat) => TermAt(w, col, n)(k)
  }

  ghost function GradRow(w: World, grad: nat -> real, n: nat): nat -> real {
    (col: nat) => grad(col) * TokenMajor(w, col, n)
  }

  ghost function LossOf(ls: nat -> Layer): nat -> real {
    (k: nat) => ls(k).Expert().Loss(ls(k).hidden, ls(k).inner).v
  }

  ghost function RowOf(l: Layer): nat -> real {
    (col: nat) => l.Expert().Row(col, l.inner).v
  }

  lemma TimesV(a: C.Dual, b: C.Dual, v: real, d: real)
    requires b == C.Dual(v, d)
    ensures C.Times(a, b).v == a.v * v
  {
  }

  lemma LossValue(x: C.Expert, hidden: nat, inner: nat, rv: nat -> real, rd: nat -> real)
    requires forall h: nat :: h < hidden ==> x.Row(h, inner) == C.Dual(rv(h), rd(h))
    ensures x.Loss(hidden, inner).v == x.w.v * Sum(C.Weighed(x.grad, rv), hidden)
  {
    C.InnerOfRows(x, hidden, inner, rv, rd);
    TimesV(x.w, x.Inner(hidden, inner), Sum(C.Weighed(x.grad, rv), hidden), Sum(C.Weighed(x.grad, rd), hidden));
  }

  /** The row of a pair's layer is the pair's expert. */
  lemma PairRow(l: Layer, w: World, grad: nat -> real, n: nat, k: nat, col: nat)
    requires w.Valid() && n < w.tokens && AtPair(l, w, grad, n, k) && w.topkIdx(n, k) >= 0
    ensures RowOf(l)(col) == w.Expert(w.Row(n), w.topkIdx(n, k), w.mask(w.topkIdx(n, k) / w.localExperts, w.slotOf(n, k)), col)
  {
    RowIsExpert(l, w, w.Row(n), w.topkIdx(n, k), w.mask(w.topkIdx(n, k) / w.localExperts, w.slotOf(n, k)), col);
  }

  /** The mixture's term of pair k is its expert times its weight. */
  lemma OutTermIs(w: World, n: nat, k: nat, col: nat, r: real, weight: real)
    requires w.Valid() && n < w.tokens && w.topkIdx(n, k) >= 0 && weight == w.weight(n, k)
    requires r == w.Expert(w.Row(n), w.topkIdx(n, k), w.mask(w.topkIdx(n, k) / w.localExperts, w.slotOf(n, k)), col)
    ensures OutTerm(w, n)(col, k) == r * weight
  {
    TermIs(w, w.topkIdx(n, k) / w.localExperts, w.slotOf(n, k), col, n, k, r, weight);
  }

  lemma Reorder(g: real, t: real, r: real, w: real)
    requires t == r * w
    ensures g * t == w * (g * r)
  {
  }

  ghost function DotOf(l: Layer): nat -> real {
    (col: nat) => l.Expert().Row(col, l.inner).dot
  }

  ghost predicate PairScaled(a: (nat, nat) -> real, k: nat, r: nat -> real, c: real, n: nat) {
    forall col: nat :: col < n ==> a(col, k) == r(col) * c
  }

  /** Terms a that are c times r, under the gradient. */
  lemma PairSum(a: (nat, nat) -> real, k: nat, grad: nat -> real, grad': nat -> real, r: nat -> real, c: real, n: nat, total: real)
    requires PairScaled(a, k, r, c, n) && forall col: nat :: col < n ==> grad'(col) == grad(col)
    requires total == c * Sum(C.Weighed(grad', r), n)
    ensures Sum(C.ScaledCol(grad, a, k), n) == total
  {
    var f, g := C.ScaledCol(grad, a, k), C.Weighed(grad', r);
    forall col: nat | col < n ensures f(col) == c * g(col) {
      Reorder(grad(col), a(col, k), r(col), c);
    }
    SumTimes(c, g, f, n);
  }

  lemma PairTerms(l: Layer, w: World, grad: nat -> real, n: nat, k: nat)
    requires w.Valid() && n < w.tokens && AtPair(l, w, grad, n, k) && w.topkIdx(n, k) >= 0
    ensures PairScaled(OutTerm(w, n), k, RowOf(l), l.w.v, w.hidden)
  {
    forall col: nat | col < w.hidden ensures OutTerm(w, n)(col, k) == RowOf(l)(col) * l.w.v {
      PairRow(l, w, grad, n, k, col);
      OutTermIs(w, n, k, col, RowOf(l)(col), l.w.v);
    }
  }

  lemma PairWeighed(l: Layer, a: (nat, nat) -> real, grad: nat -> real, k: nat)
    requires PairScaled(a, k, RowOf(l), l.w.v, l.hidden) && forall col: nat :: col < l.hidden ==> l.grad(col) == grad(col)
    ensures Sum(C.ScaledCol(grad, a, k), l.hidden) == l.Expert().Loss(l.hidden, l.inner).v
  {
    PairLoss(l);
    PairSum(a, k, grad, l.grad, RowOf(l), l.w.v, l.hidden, l.Expert().Loss(l.hidden, l.inner).v);
  }

  /** What pair k gives to the loss of its token. */
  lemma PairOutput(l: Layer, w: World, grad: nat -> real, n: nat, k: nat)
    requires w.Valid() && n < w.tokens && AtPair(l, w, grad, n, k) && w.topkIdx(n, k) >= 0
    ensures Sum(C.ScaledCol(grad, OutTerm(w, n), k), w.hidden) == l.Expert().Loss(l.hidden, l.inner).v
  {
    PairTerms(l, w, grad, n, k);
    PairWeighed(l, OutTerm(w, n), grad, k);
  }

  lemma RowDual(l: Layer, h: nat)
    ensures l.Expert().Row(h, l.inner) == C.Dual(RowOf(l)(h), DotOf(l)(h))
  {
  }

  lemma PairLoss(l: Layer)
    ensures l.Expert().Loss(l.hidden, l.inner).v == l.w.v * Sum(C.Weighed(l.grad, RowOf(l)), l.hidden)
  {
    forall h: nat | h < l.hidden ensures l.Expert().Row(h, l.inner) == C.Dual(RowOf(l)(h), DotOf(l)(h)) {
      RowDual(l, h);
    }
    LossValue(l.Expert(), l.hidden, l.inner, RowOf(l), DotOf(l));
  }

  lemma OutTermDropped(w: World, n: nat, k: nat, col: nat)
    requires w.topkIdx(n, k) < 0
    ensures OutTerm(w, n)(col, k) == 0.0
  {
    assert TermAt(w, col, n)(k) == 0.0;
    var f := OutTerm(w, n);
    assert f(col, k) == TermAt(w, col, n)(k);
  }

  lemma OutTermSum(w: World, n: nat, col: nat)
    requires w.Valid()
    ensures Sum(C.RowTerms(OutTerm(w, n), col), w.topk) == TokenMajor(w, col, n)
  {
    var f, g := C.RowTerms(OutTerm(w, n), col), Masked(Kept(w, n), TermAt(w, col, n));
    forall k: nat | k < w.topk ensures f(k) == g(k) {
      if w.topkIdx(n, k) < 0 {
        OutTermDropped(w, n, k, col);
      }
    }
    SumEq(f, g, w.topk);
  }

  lemma GradRowIs(w: World, grad: nat -> real, n: nat, col: nat)
    requires w.Valid()
    ensures C.ScaledRows(grad, OutTerm(w, n), w.topk)(col) == GradRow(w, grad, n)(col)
  {
    OutTermSum(w, n, col);
    SameProduct(grad(col), Sum(C.RowTerms(OutTerm(w, n), col), w.topk), TokenMajor(w, col, n));
  }

  lemma GradRows(w: World, grad: nat -> real, n: nat)
    requires w.Valid()
    ensures Sum(GradRow(w, grad, n), w.hidden) == Sum(C.ColSums(grad, OutTerm(w, n), w.hidden), w.topk)
  {
    var f, g := C.ScaledRows(grad, OutTerm(w, n), w.topk), GradRow(w, grad, n);
    forall col: nat | col < w.hidden ensures f(col) == g(col) {
      GradRowIs(w, grad, n, col);
    }
    SumEq(f, g, w.hidden);
    C.Exchange(grad, OutTerm(w, n), w.hidden, w.topk);
  }

  lemma DroppedPair(w: World, grad: nat -> real, n: nat, k: nat)
    requires w.topkIdx(n, k) < 0
    ensures Sum(C.ScaledCol(grad, OutTerm(w, n), k), w.hidden) == 0.0
  {
    forall col: nat | col < w.hidden ensures C.ScaledCol(grad, OutTerm(w, n), k)(col) == 0.0 {
      OutTermDropped(w, n, k, col);
      SameProduct(grad(col), OutTerm(w, n)(col, k), 0.0);
    }
    SumZero(C.ScaledCol(grad, OutTerm(w, n), k), w.hidden);
  }

  lemma PairIs(ls: nat -> Layer, w: World, grad: nat -> real, n: nat, k: nat)
    requires w.Valid() && n < w.tokens && AtPair(ls(k), w, grad, n, k)
    ensures C.ColSums(grad, OutTerm(w, n), w.hidden)(k) == Masked(Kept(w, n), LossOf(ls))(k)
  {
    if w.topkIdx(n, k) >= 0 {
      PairOutput(ls(k), w, grad, n, k);
    } else {
      DroppedPair(w, grad, n, k);
    }
  }

  /** The loss of a token under the forward pass's output is the sum of the losses of its kept pairs' layers, whose
    * derivatives LayerIsDifferentiated gives. */
  lemma MixtureLoss(ls: nat -> Layer, w: World, grad: nat -> real, n: nat)
    requires w.Valid() && n < w.tokens && forall k: nat :: k < w.topk ==> AtPair(ls(k), w, grad, n, k)
    ensures Sum(GradRow(w, grad, n), w.hidden) == Sum(Masked(Kept(w, n), LossOf(ls)), w.topk)
  {
    GradRows(w, grad, n);
    var f, g := C.ColSums(grad, OutTerm(w, n), w.hidden), Masked(Kept(w, n), LossOf(ls));
    forall k: nat | k < w.topk ensures f(k) == g(k) {
      PairIs(ls, w, grad, n, k);
    }
    SumEq(f, g, w.topk);
  }

  // ---------------------------------------------------------------------------
  // The registers of the backward kernel.
  // ---------------------------------------------------------------------------

  ghost function GradTerm(w: World, e: nat, grad: nat -> real, i: nat): nat -> real {
    (col: nat) => grad(col) * w.w2(e, col, i)
  }

  /** An element that holds what the forward pass stored for column c of a pool row: gate and up are columns 2c and
    * 2c + 1 of the pre-activation, the mask is the forward factor, and the gradient comes through W2. */
  ghost predicate Reads(f: B.Frag, i: nat, w: World, row: seq<real>, e: nat, factor: nat -> real, weight: real,
                        grad: nat -> real, c: nat)
    requires f.Valid() && i < f.N()
  {
    && f.Clean(i) && (forall x: real :: f.act.silu(x) == w.silu(x))
    && f.xy[2 * i].v == w.Pre(row, e, 2 * c) && f.xy[2 * i + 1].v == w.Pre(row, e, 2 * c + 1)
    && f.g[i].v == Sum(GradTerm(w, e, grad, c), w.hidden)
    && f.D(i) == factor(c) && f.weight[i] == weight
  }

  lemma {:induction false} GIs(l: Layer, w: World, row: seq<real>, e: nat, factor: nat -> real, c: nat, n: nat)
    requires StandsAt(l, w, row, e, factor) && c < w.inner
    ensures l.Expert().G(n, c) == Sum(GradTerm(w, e, l.grad, c), n)
  {
    if n > 0 {
      GIs(l, w, row, e, factor, c, n - 1);
    }
  }

  /** Such an element carries the layer's expert, so that after the epilogue its registers hold the gradients of the
    * very row that the forward pass computed (RowReduce.VisitSubtile). */
  lemma ForwardIsCarried(f: B.Frag, col: nat -> nat, x: R.Rows, i: nat, l: Layer, w: World, row: seq<real>, e: nat,
                         factor: nat -> real)
    requires f.Valid() && i < f.N() && f.recv[i] == x.recv(f.rowOf[i]) && f.act == l.act
    requires x.expert(f.rowOf[i]) == l.Expert() && x.hidden == l.hidden && col(i) < w.inner
    requires StandsAt(l, w, row, e, factor)
    requires f.Active(i) ==> Reads(f, i, w, row, e, factor, l.w.v, l.grad, col(i))
    ensures R.CarriesAt(f, col, x, i)
  {
    if f.Active(i) {
      PreIsPre(l, w, row, e, factor, 2 * col(i));
      PreIsPre(l, w, row, e, factor, 2 * col(i) + 1);
      GIs(l, w, row, e, factor, col(i), l.hidden);
    }
  }
}
