/** 32-bit words as numbers: multiplication modulo 2^32, exclusive or, and the inverses of odd
  * multiplications and xor-shifts. */
module Words {
  import opened Arith

  const W: nat := 0x1_0000_0000

  function Mul(a: nat, c: nat): (r: nat)
    ensures r < W
  {
    a * c % W
  }

  function Xor(a: nat, b: nat): nat
    decreases a + b
  {
    if a == 0 && b == 0 then 0 else 2 * Xor(a / 2, b / 2) + if a % 2 == b % 2 then 0 else 1
  }

  function Pow2(k: nat): (p: nat)
    ensures p > 0
  {
    if k == 0 then 1 else 2 * Pow2(k - 1)
  }

  lemma XorStep(a: nat, b: nat)
    ensures Xor(a, b) / 2 == Xor(a / 2, b / 2)
    ensures Xor(a, b) % 2 == if a % 2 == b % 2 then 0 else 1
  {
  }

  lemma {:induction false} XorZero(a: nat)
    ensures Xor(a, 0) == a && Xor(0, a) == a
  {
    if a > 0 {
      XorZero(a / 2);
    }
  }

  lemma {:induction false} XorSelf(a: nat)
    ensures Xor(a, a) == 0
  {
    if a > 0 {
      XorSelf(a / 2);
    }
  }

  lemma {:induction false} XorComm(a: nat, b: nat)
    ensures Xor(a, b) == Xor(b, a)
    decreases a + b
  {
    if a > 0 || b > 0 {
      XorComm(a / 2, b / 2);
    }
  }

  lemma {:induction false} XorAssoc(a: nat, b: nat, c: nat)
    ensures Xor(Xor(a, b), c) == Xor(a, Xor(b, c))
    decreases a + b + c
  {
    if a > 0 || b > 0 || c > 0 {
      XorAssoc(a / 2, b / 2, c / 2);
      XorStep(a, b);
      XorStep(b, c);
      XorStep(Xor(a, b), c);
      XorStep(a, Xor(b, c));
    }
  }

  lemma XorCancel(a: nat, b: nat)
    ensures Xor(Xor(a, b), b) == a
  {
    XorAssoc(a, b, b);
    XorSelf(b);
    XorZero(a);
  }

  lemma {:induction false} XorBelow(a: nat, b: nat, k: nat)
    requires a < Pow2(k) && b < Pow2(k)
    ensures Xor(a, b) < Pow2(k)
  {
    if k > 0 {
      XorBelow(a / 2, b / 2, k - 1);
      XorStep(a, b);
    }
  }

  /** h >> k. */
  function Shift(h: nat, k: nat): nat
    decreases k
  {
    if k == 0 then h else Shift(h / 2, k - 1)
  }

  lemma {:induction false} XorShift(a: nat, b: nat, k: nat)
    ensures Shift(Xor(a, b), k) == Xor(Shift(a, k), Shift(b, k))
    decreases k
  {
    if k > 0 {
      XorShift(a / 2, b / 2, k - 1);
      XorStep(a, b);
    }
  }

  lemma {:induction false} ShiftAdd(a: nat, j: nat, k: nat)
    ensures Shift(Shift(a, j), k) == Shift(a, j + k)
    decreases j
  {
    if j > 0 {
      ShiftAdd(a / 2, j - 1, k);
    }
  }

  /** A number of j + k bits keeps j of them. */
  lemma {:induction false} ShiftBelow(h: nat, j: nat, k: nat)
    requires h < Pow2(j + k)
    ensures Shift(h, k) < Pow2(j)
    decreases k
  {
    if k > 0 {
      ShiftBelow(h / 2, j, k - 1);
    }
  }

  lemma {:induction false} Pow2Mono(j: nat, k: nat)
    requires j <= k
    ensures Pow2(j) <= Pow2(k)
    decreases k
  {
    if j < k {
      Pow2Mono(j, k - 1);
    }
  }

  lemma Pow2Word()
    ensures Pow2(32) == W && Pow2(16) == 65536
  {
    assert Pow2(8) == 256;
    assert Pow2(16) == 65536;
    assert Pow2(24) == 0x100_0000;
    assert Pow2(32) == W;
  }

  /** h ^ (h >> k). */
  function ShiftXor(h: nat, k: nat): nat {
    Xor(h, Shift(h, k))
  }

  lemma ShiftWord(h: nat, k: nat)
    requires h < W
    ensures Shift(h, k) < W && (k >= 32 ==> Shift(h, k) == 0)
  {
    Pow2Word();
    ShiftWordOf(h, 32, k);
  }

  lemma ShiftWordOf(h: nat, bits: nat, k: nat)
    requires h < Pow2(bits)
    ensures Shift(h, k) < Pow2(bits) && (k >= bits ==> Shift(h, k) == 0)
  {
    Pow2Mono(bits, bits + k);
    ShiftBelow(h, bits, k);
    if k >= bits {
      Pow2Mono(bits, k);
      ShiftBelow(h, 0, k);
    }
  }

  lemma XorWord(a: nat, b: nat)
    requires a < W && b < W
    ensures Xor(a, b) < W
  {
    Pow2Word();
    XorBelow(a, b, 32);
  }

  lemma ShiftXorWord(h: nat, k: nat)
    requires h < W
    ensures ShiftXor(h, k) < W
  {
    ShiftWord(h, k);
    XorWord(h, Shift(h, k));
  }

  /** Undoes a xor-shift by a third of a word or more. */
  function UnshiftXor(y: nat, k: nat): nat {
    Xor(Xor(y, Shift(y, k)), Shift(y, k + k))
  }

  lemma UnshiftXorInverse(h: nat, k: nat)
    requires h < W && k >= 11
    ensures UnshiftXor(ShiftXor(h, k), k) == h
  {
    var y, a, b := ShiftXor(h, k), Shift(h, k), Shift(h, k + k);
    XorShift(h, a, k);
    ShiftAdd(h, k, k);
    XorShift(h, a, k + k);
    ShiftAdd(h, k, k + k);
    ShiftWord(h, k + k + k);
    XorZero(b);
    XorAssoc(Xor(h, a), a, b);
    XorCancel(h, a);
    XorCancel(h, b);
  }

  lemma ShiftXorInverse(y: nat, k: nat)
    requires y < W && k >= 11
    ensures UnshiftXor(y, k) < W && ShiftXor(UnshiftXor(y, k), k) == y
  {
    var a, b, h := Shift(y, k), Shift(y, k + k), UnshiftXor(y, k);
    ShiftWord(y, k);
    ShiftWord(y, k + k);
    XorWord(y, a);
    XorWord(Xor(y, a), b);
    ShiftOfUnshift(y, k);
    XorAssoc(Xor(y, a), b, Xor(a, b));
    XorComm(a, b);
    XorAssoc(b, b, a);
    XorSelf(b);
    XorZero(a);
    XorCancel(y, a);
  }

  lemma ShiftOfUnshift(y: nat, k: nat)
    requires y < W && k >= 11
    ensures Shift(UnshiftXor(y, k), k) == Xor(Shift(y, k), Shift(y, k + k))
  {
    var a, b := Shift(y, k), Shift(y, k + k);
    XorShift(Xor(y, a), b, k);
    XorShift(y, a, k);
    ShiftAdd(y, k, k);
    ShiftAdd(y, k + k, k);
    ShiftWord(y, k + k + k);
    XorZero(Xor(a, b));
  }

  /** Multiplying by c and then by its inverse modulo 2^32 gives the word back. */
  lemma MulInverse(x: nat, c: nat, inv: nat)
    requires x < W && c * inv % W == 1
    ensures Mul(Mul(x, c), inv) == x
  {
    var q, r := x * c / W, x * c % W;
    var k := c * inv / W;
    assert x * c == q * W + r && c * inv == k * W + 1;
    assert x * c * inv == x * (c * inv) == x * k * W + x;
    assert x * c * inv == q * inv * W + r * inv;
    assert r * inv == (x * k - q * inv) * W + x;
    ModUnique(r * inv, x * k - q * inv, x);
  }

  lemma ModUnique(n: nat, q: int, r: nat)
    requires n == q * W + r && r < W
    ensures n % W == r
  {
  }
}
