/** The finalizer without its last xor-shift. The source's comment says that the shift cannot change what the
  * threshold compare reads; that is so for some thresholds only, and this module says exactly which. */
module DropoutFinalizer {
  import opened Arith
  import opened Words

  const HALF: nat := 0x1_0000

  /** h ^ (h >> 16), the step the mask leaves out. */
  function Finalized(h: nat): nat {
    Xor(h, h / HALF)
  }

  /** Leaving it out before the comparison changes no keep decision. */
  ghost predicate ShiftRedundant(threshold: nat) {
    forall h: nat :: h < W ==> (Finalized(h) >= threshold <==> h >= threshold)
  }

  /** The least power of two above q. */
  function Span(q: nat): (m: nat)
    ensures m > q && (q > 0 ==> m <= 2 * q)
  {
    if q == 0 then 1 else 2 * Span(q / 2)
  }

  function Bits(q: nat): nat {
    if q == 0 then 0 else 1 + Bits(q / 2)
  }

  lemma {:induction false} SpanIsPow2(q: nat, k: nat)
    requires q < Pow2(k)
    ensures Bits(q) <= k && Span(q) == Pow2(Bits(q))
    decreases k
  {
    if q > 0 {
      SpanIsPow2(q / 2, k - 1);
    }
  }

  lemma {:induction false} Pow2Add(j: nat, k: nat)
    ensures Pow2(j + k) == Pow2(j) * Pow2(k)
    decreases j
  {
    if j > 0 {
      Pow2Add(j - 1, k);
      TwiceTimes(Pow2(j - 1), Pow2(k));
    }
  }

  lemma TwiceTimes(a: nat, b: nat)
    ensures 2 * (a * b) == 2 * a * b
  {
  }

  /** Exclusive or with a number of k bits leaves the bits above k alone. */
  lemma {:induction false} XorLow(a: nat, b: nat, c: nat, k: nat)
    requires b < Pow2(k) && c < Pow2(k)
    ensures Xor(a * Pow2(k) + b, c) == a * Pow2(k) + Xor(b, c)
    decreases k
  {
    if k == 0 {
      XorZero(a);
      XorZero(0);
    } else {
      var p := Pow2(k - 1);
      assert a * Pow2(k) == 2 * (a * p);
      XorLow(a, b / 2, c / 2, k - 1);
      XorStep(a * Pow2(k) + b, c);
      XorStep(b, c);
      assert (2 * (a * p) + b) / 2 == a * p + b / 2 && (2 * (a * p) + b) % 2 == b % 2;
    }
  }

  lemma {:induction false} XorOnes(q: nat, k: nat)
    requires q < Pow2(k)
    ensures Xor(Pow2(k) - 1, q) == Pow2(k) - 1 - q
    decreases k
  {
    if k > 0 {
      XorOnes(q / 2, k - 1);
      XorStep(Pow2(k) - 1, q);
      assert (Pow2(k) - 1) / 2 == Pow2(k - 1) - 1;
    }
  }

  /** The shift mixes the upper half into the lower half and keeps the upper half. */
  lemma FinalizedHalves(hi: nat, lo: nat)
    requires hi < HALF && lo < HALF
    ensures Finalized(hi * HALF + lo) == hi * HALF + Xor(lo, hi) && Xor(lo, hi) < HALF
  {
    Pow2Word();
    HalvesXor(hi, lo, hi, 16);
  }

  lemma HalvesXor(hi: nat, lo: nat, c: nat, k: nat)
    requires Pow2(k) == HALF && lo < HALF && c < HALF
    ensures Xor(hi * HALF + lo, c) == hi * HALF + Xor(lo, c) && Xor(lo, c) < HALF
  {
    XorLow(hi, lo, c, k);
    XorBelow(lo, c, k);
  }

  /** Mixing q into the lower half changes no comparison with r. */
  ghost predicate LowSame(q: nat, r: nat) {
    forall lo: nat :: lo < HALF ==> (Xor(lo, q) >= r <==> lo >= r)
  }

  lemma RedundantIffLow(q: nat, r: nat)
    requires q < HALF && r < HALF
    ensures ShiftRedundant(q * HALF + r) <==> LowSame(q, r)
  {
    var t := q * HALF + r;
    if ShiftRedundant(t) {
      forall lo: nat | lo < HALF ensures Xor(lo, q) >= r <==> lo >= r {
        FinalizedHalves(q, lo);
        var h := q * HALF + lo;
        assert Finalized(h) >= t <==> h >= t;
      }
    }
    if LowSame(q, r) {
      forall h: nat | h < W ensures Finalized(h) >= t <==> h >= t {
        HighDecides(q, r, h / HALF, h % HALF);
      }
    }
  }

  lemma HighDecides(q: nat, r: nat, hi: nat, lo: nat)
    requires q < HALF && r < HALF && hi < HALF && lo < HALF && LowSame(q, r)
    ensures Finalized(hi * HALF + lo) >= q * HALF + r <==> hi * HALF + lo >= q * HALF + r
  {
    FinalizedHalves(hi, lo);
    assert Xor(lo, q) >= r <==> lo >= r;
  }

  lemma BlockOrder(x: nat, y: nat, y': nat, z: nat, m: nat)
    requires y < m && y' < m
    ensures x * m + y >= z * m <==> x * m + y' >= z * m
  {
    if x >= z {
      MulLe(z, x, m);
    } else {
      MulLe(x + 1, z, m);
      assert (x + 1) * m == x * m + m;
    }
  }

  lemma AlignedBlock(x: nat, y: nat, z: nat, q: nat, m: nat, k: nat)
    requires m == Pow2(k) && y < m && q < m
    ensures Xor(x * m + y, q) >= z * m <==> x * m + y >= z * m
  {
    XorLow(x, y, q, k);
    XorBelow(y, q, k);
    BlockOrder(x, y, Xor(y, q), z, m);
  }

  lemma Split(n: nat, m: nat) returns (x: nat, y: nat)
    requires m > 0
    ensures x == n / m && y == n % m && n == x * m + y && y < m
  {
    x, y := n / m, n % m;
  }

  lemma AlignedLow(q: nat, z: nat, lo: nat, m: nat, k: nat)
    requires m == Pow2(k) && q < m
    ensures Xor(lo, q) >= z * m <==> lo >= z * m
  {
    var x, y := Split(lo, m);
    AlignedBlock(x, y, z, q, m, k);
  }

  lemma StartFlips(z: nat, q: nat, m: nat, k: nat)
    requires m == Pow2(k) && q < m
    ensures Xor(z * m, q) == z * m + q
  {
    XorLow(z, 0, q, k);
    XorZero(q);
    assert z * m + 0 == z * m;
  }

  lemma EndFlips(z: nat, q: nat, m: nat, k: nat)
    requires m == Pow2(k) && q < m
    ensures Xor(z * m + (m - 1), q) == z * m + (m - 1 - q)
  {
    XorLow(z, m - 1, q, k);
    XorOnes(q, k);
  }

  /** A threshold that is not aligned has a low half whose decision changes. */
  lemma UnalignedLow(q: nat, z: nat, s: nat, m: nat, k: nat) returns (lo: nat)
    requires m == Pow2(k) && q < m && m <= 2 * q && 0 < s < m
    ensures lo < z * m + m && (Xor(lo, q) >= z * m + s <==> lo < z * m + s)
  {
    if q >= s {
      lo := z * m;
      StartFlips(z, q, m, k);
    } else {
      lo := z * m + (m - 1);
      EndFlips(z, q, m, k);
    }
  }

  /** A block that starts inside the half word ends inside it. */
  lemma BlockFits(z: nat, s: nat, bits: nat)
    requires bits <= 16 && z * Pow2(bits) + s < HALF
    ensures z * Pow2(bits) + Pow2(bits) <= HALF
  {
    Pow2Word();
    Pow2Add(16 - bits, bits);
    BlockEnd(z, s, Pow2(16 - bits), Pow2(bits));
  }

  lemma BlockEnd(z: nat, s: nat, n: nat, m: nat)
    requires z * m + s < n * m
    ensures z * m + m <= n * m
  {
    if n <= z {
      MulLe(n, z, m);
    }
    MulLe(z + 1, n, m);
    assert (z + 1) * m == z * m + m;
  }

  lemma AlignedIsSame(q: nat, z: nat, m: nat, k: nat)
    requires m == Pow2(k) && q < m
    ensures LowSame(q, z * m)
  {
    forall lo: nat | lo < HALF ensures Xor(lo, q) >= z * m <==> lo >= z * m {
      AlignedLow(q, z, lo, m, k);
    }
  }

  lemma UnalignedDiffers(q: nat, z: nat, s: nat, m: nat, k: nat)
    requires m == Pow2(k) && q < m && m <= 2 * q && 0 < s < m && z * m + m <= HALF
    ensures !LowSame(q, z * m + s)
  {
    var r := z * m + s;
    var lo := UnalignedLow(q, z, s, m, k);
    assert !(Xor(lo, q) >= r <==> lo >= r);
  }

  lemma LowSameIff(q: nat, r: nat)
    requires q < HALF && r < HALF
    ensures LowSame(q, r) <==> r % Span(q) == 0
  {
    HalfSpan(q);
    var m, k := Span(q), Bits(q);
    var z, s := Split(r, m);
    if s == 0 {
      AlignedIsSame(q, z, m, k);
    } else {
      BlockFits(z, s, k);
      assert q == 0 ==> m == 1;
      UnalignedDiffers(q, z, s, m, k);
    }
  }

  /** Exactly when the shortened finalizer keeps and drops the same units as the full one: the lower half of
    * the threshold is a multiple of the least power of two above its upper half. */
  lemma ShiftRedundantIff(threshold: nat)
    requires threshold < W
    ensures ShiftRedundant(threshold) <==> threshold % HALF % Span(threshold / HALF) == 0
  {
    RedundantIffLow(threshold / HALF, threshold % HALF);
    LowSameIff(threshold / HALF, threshold % HALF);
  }

  lemma HalfSpan(q: nat)
    requires q < HALF
    ensures Bits(q) <= 16 && Span(q) == Pow2(Bits(q))
  {
    Pow2Word();
    SpanIsPow2(q, 16);
  }

  /** The threshold word of p = 0.1 is not such a threshold: this word is dropped by the mask and would be kept
    * by the full finalizer. */
  lemma TenPercentDiffers()
    ensures Finalized(0x1999_8003) >= 0x1999_999A > 0x1999_8003
    ensures !ShiftRedundant(0x1999_999A)
  {
    assert Xor(0x8, 0x1) == 0x9;
    assert Xor(0x80, 0x19) == 0x99;
    assert Xor(0x800, 0x199) == 0x999;
    assert Xor(0x8003, 0x1999) == 0x999A;
    FinalizedHalves(0x1999, 0x8003);
  }
}
