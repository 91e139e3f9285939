/** Division facts for a variable divisor. */
module Arith {

  lemma MulLe(a: int, b: int, d: nat)
    requires a <= b
    ensures a * d <= b * d
  {
    assert b * d == a * d + (b - a) * d;
    MulNonNeg(b - a, d);
  }

  lemma MulNonNeg(a: nat, b: nat)
    ensures 0 <= a * b
  {
  }

  /** A quotient and a remainder below the divisor are the ones of the division. */
  lemma DivUnique(x: nat, q: nat, r: nat, d: nat)
    requires r < d && x == q * d + r
    ensures x / d == q && x % d == r
  {
    var q', r' := x / d, x % d;
    assert x == q' * d + r';
    assert (q' + 1) * d == q' * d + d && (q + 1) * d == q * d + d;
    if q' < q {
      MulLe(q' + 1, q, d);
    } else if q < q' {
      MulLe(q + 1, q', d);
    }
  }

  lemma PairUnique(q: nat, r: nat, q': nat, r': nat, d: nat)
    requires r < d && r' < d && q * d + r == q' * d + r'
    ensures q == q' && r == r'
  {
    DivUnique(q * d + r, q, r, d);
    DivUnique(q * d + r, q', r', d);
  }

  lemma DivBound(x: nat, a: nat, d: nat)
    requires d > 0 && x < a * d
    ensures x / d < a
    ensures x == x / d * d + x % d && 0 <= x % d < d
  {
    if a <= x / d {
      MulLe(a, x / d, d);
    }
  }

  /** Pairs (q, r) with r below d are laid out densely in lexicographic order. */
  lemma PairBound(q: nat, r: nat, a: nat, d: nat)
    requires q < a && r < d
    ensures q * d + r < a * d
  {
    MulLe(q + 1, a, d);
    assert (q + 1) * d == q * d + d;
  }

  lemma DivRange(x: nat, a: nat, b: nat, d: nat)
    requires d > 0 && a * d <= x < b * d
    ensures a <= x / d < b
  {
    DivBound(x, b, d);
    assert (x / d + 1) * d == x / d * d + d;
    if x / d < a {
      MulLe(x / d + 1, a, d);
    }
  }

  lemma ModLow(x: nat, d: nat)
    requires d > 0
    ensures x % d <= x
  {
    assert x == x / d * d + x % d;
    MulNonNeg(x / d, d);
  }

  /** Two numbers with one residue are a whole stride apart. */
  lemma NextInStride(x: nat, at: nat, d: nat)
    requires d > 0 && x % d == at % d && at <= x < at + d
    ensures x == at
  {
    assert x - at == (x / d - at / d) * d;
    if x / d - at / d >= 1 {
      MulLe(1, x / d - at / d, d);
    } else {
      MulLe(x / d - at / d, 0, d);
    }
  }

  /** n, split by d, in block t of q places. */
  lemma PackInBlock(t: nat, n: nat, blocks: nat, q: nat, d: nat)
    requires d > 0 && t < blocks && n < q * d
    ensures t * q + n / d < blocks * q && n / d * d + n % d == n
    ensures (t * q + n / d) / q == t && (t * q + n / d) % q == n / d
  {
    DivBound(n, q, d);
    PackPlace(t, n / d, blocks, q);
  }

  lemma PackPlace(t: nat, m: nat, blocks: nat, q: nat)
    requires t < blocks && m < q
    ensures t * q + m < blocks * q && (t * q + m) / q == t && (t * q + m) % q == m
  {
    DivUnique(t * q + m, t, m, q);
    PairBound(t, m, blocks, q);
  }

  lemma CeilDiv(a: nat, d: nat)
    requires d > 0
    ensures (a + d - 1) / d * d >= a
    ensures a > 0 ==> ((a + d - 1) / d - 1) * d < a
  {
    var q := (a + d - 1) / d;
    assert a + d - 1 == q * d + (a + d - 1) % d;
    assert (q - 1) * d == q * d - d;
  }
}
