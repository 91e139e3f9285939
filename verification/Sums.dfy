/** Finite sums over an index range, and the few facts the proofs need about them. */
module Sums {

  function Sum(f: nat -> real, n: nat): real {
    if n == 0 then 0.0 else Sum(f, n - 1) + f(n - 1)
  }

  ghost function SumN(f: nat -> nat, n: nat): nat {
    if n == 0 then 0 else SumN(f, n - 1) + f(n - 1)
  }

  ghost function Indicator(p: nat -> bool): nat -> nat {
    (i: nat) => if p(i) then 1 else 0
  }

  /** How many indices below n satisfy p. */
  ghost function Count(p: nat -> bool, n: nat): nat {
    SumN(Indicator(p), n)
  }

  lemma SumEq(f: nat -> real, g: nat -> real, n: nat)
    requires forall i: nat :: i < n ==> f(i) == g(i)
    ensures Sum(f, n) == Sum(g, n)
  {
  }

  /** Changing one term changes the sum by the difference of that term. */
  lemma SumBump(f: nat -> real, g: nat -> real, k: nat, n: nat)
    requires k < n
    requires forall i: nat :: i < n && i != k ==> f(i) == g(i)
    ensures Sum(g, n) == Sum(f, n) + g(k) - f(k)
  {
    if k == n - 1 {
      SumEq(f, g, n - 1);
    } else {
      SumBump(f, g, k, n - 1);
    }
  }

  lemma SumNEq(f: nat -> nat, g: nat -> nat, n: nat)
    requires forall i: nat :: i < n ==> f(i) == g(i)
    ensures SumN(f, n) == SumN(g, n)
  {
  }

  lemma SumNBump(f: nat -> nat, g: nat -> nat, k: nat, n: nat)
    requires k < n
    requires forall i: nat :: i < n && i != k ==> f(i) == g(i)
    ensures SumN(g, n) == SumN(f, n) + g(k) - f(k)
  {
    if k == n - 1 {
      SumNEq(f, g, n - 1);
    } else {
      SumNBump(f, g, k, n - 1);
    }
  }

  lemma CountEq(p: nat -> bool, q: nat -> bool, n: nat)
    requires forall i: nat :: i < n ==> p(i) == q(i)
    ensures Count(p, n) == Count(q, n)
  {
    SumNEq(Indicator(p), Indicator(q), n);
  }

  lemma CountBump(p: nat -> bool, q: nat -> bool, k: nat, n: nat)
    requires k < n
    requires forall i: nat :: i < n && i != k ==> p(i) == q(i)
    requires !p(k) && q(k)
    ensures Count(q, n) == Count(p, n) + 1
  {
    SumNBump(Indicator(p), Indicator(q), k, n);
  }

  /** A count over a smaller predicate is smaller, and equal only when the predicates agree. */
  lemma CountLe(p: nat -> bool, q: nat -> bool, n: nat)
    requires forall i: nat :: i < n && p(i) ==> q(i)
    ensures Count(p, n) <= Count(q, n)
    ensures Count(p, n) == Count(q, n) ==> forall i: nat :: i < n && q(i) ==> p(i)
  {
    if n > 0 {
      CountLe(p, q, n - 1);
    }
  }

  lemma CountAll(p: nat -> bool, n: nat)
    ensures Count(p, n) <= n
    ensures Count(p, n) == n <==> forall i: nat :: i < n ==> p(i)
  {
    if n > 0 {
      CountAll(p, n - 1);
    }
  }

  lemma CountNone(p: nat -> bool, n: nat)
    ensures Count(p, n) == 0 <==> forall i: nat :: i < n ==> !p(i)
  {
    if n > 0 {
      CountNone(p, n - 1);
    }
  }

  // ---------------------------------------------------------------------------
  // Sums and counts over corresponding index sets.
  // ---------------------------------------------------------------------------

  ghost function Masked(p: nat -> bool, f: nat -> real): nat -> real {
    (i: nat) => if p(i) then f(i) else 0.0
  }

  ghost function Without(q: nat -> bool, k: nat): nat -> bool {
    (j: nat) => q(j) && j != k
  }

  /** h and g are inverse to one another between the p-indices below n and the q-indices below m. */
  ghost predicate Bijection(p: nat -> bool, n: nat, q: nat -> bool, m: nat, h: nat -> nat, g: nat -> nat) {
    && (forall i: nat :: i < n && p(i) ==> h(i) < m && q(h(i)) && g(h(i)) == i)
    && (forall j: nat :: j < m && q(j) ==> g(j) < n && p(g(j)) && h(g(j)) == j)
  }

  lemma BijectionDrop(p: nat -> bool, n: nat, q: nat -> bool, m: nat, h: nat -> nat, g: nat -> nat)
    requires n > 0 && Bijection(p, n, q, m, h, g)
    ensures Bijection(p, n - 1, if p(n - 1) then Without(q, h(n - 1)) else q, m, h, g)
  {
  }

  lemma SumWithout(q: nat -> bool, k: nat, m: nat, f: nat -> real)
    requires k < m && q(k)
    ensures Sum(Masked(q, f), m) == Sum(Masked(Without(q, k), f), m) + f(k)
  {
    SumBump(Masked(Without(q, k), f), Masked(q, f), k, m);
  }

  /** A sum does not care how its terms are numbered. */
  lemma {:induction false} SumBijection(p: nat -> bool, n: nat, q: nat -> bool, m: nat, h: nat -> nat, g: nat -> nat,
        a: nat -> real, b: nat -> real)
    requires Bijection(p, n, q, m, h, g) && SameTerms(p, n, h, a, b)
    ensures Sum(Masked(p, a), n) == Sum(Masked(q, b), m)
    decreases n
  {
    if n == 0 {
      SumZero(Masked(q, b), m);
      assert Sum(Masked(p, a), n) == 0.0;
    } else {
      BijectionDrop(p, n, q, m, h, g);
      SumLast(p, a, n);
      if p(n - 1) {
        SumBijection(p, n - 1, Without(q, h(n - 1)), m, h, g, a, b);
        SumWithout(q, h(n - 1), m, b);
        assert a(n - 1) == b(h(n - 1));
        assert Sum(Masked(p, a), n) == Sum(Masked(q, b), m);
      } else {
        SumBijection(p, n - 1, q, m, h, g, a, b);
        assert Sum(Masked(p, a), n) == Sum(Masked(q, b), m);
      }
    }
  }

  ghost predicate SameTerms(p: nat -> bool, n: nat, h: nat -> nat, a: nat -> real, b: nat -> real) {
    forall i: nat :: i < n && p(i) ==> a(i) == b(h(i))
  }

  lemma SumLast(p: nat -> bool, a: nat -> real, n: nat)
    requires n > 0
    ensures Sum(Masked(p, a), n) == Sum(Masked(p, a), n - 1) + if p(n - 1) then a(n - 1) else 0.0
  {
  }

  lemma {:induction false} CountBijection(p: nat -> bool, n: nat, q: nat -> bool, m: nat, h: nat -> nat, g: nat -> nat)
    requires Bijection(p, n, q, m, h, g)
    ensures Count(p, n) == Count(q, m)
    decreases n
  {
    if n == 0 {
      CountNone(q, m);
    } else {
      BijectionDrop(p, n, q, m, h, g);
      if p(n - 1) {
        CountBijection(p, n - 1, Without(q, h(n - 1)), m, h, g);
        CountBump(Without(q, h(n - 1)), q, h(n - 1), m);
      } else {
        CountBijection(p, n - 1, q, m, h, g);
      }
    }
  }

  lemma SumZero(f: nat -> real, n: nat)
    requires forall i: nat :: i < n ==> f(i) == 0.0
    ensures Sum(f, n) == 0.0
  {
  }

  /** A sum over a disjoint union. */
  lemma {:induction false} SumSplit(p: nat -> bool, q: nat -> bool, r: nat -> bool, f: nat -> real, n: nat)
    requires forall i: nat :: i < n ==> r(i) == (p(i) || q(i)) && !(p(i) && q(i))
    ensures Sum(Masked(r, f), n) == Sum(Masked(p, f), n) + Sum(Masked(q, f), n)
  {
    if n > 0 {
      SumSplit(p, q, r, f, n - 1);
    }
  }
}
