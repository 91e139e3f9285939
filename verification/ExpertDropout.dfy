/** The stateless expert-dropout mask: a hash of (seed, pool row, activation column) against a threshold,
  * the host mirror of it, and the two tilings that regenerate it. */
module ExpertDropout {
  import opened Arith
  import opened Sums
  import opened Words
  import PoolLayout
  import TileScheduler

  /** The multipliers of the hash, with their inverses modulo 2^32. */
  datatype Mixer = Mixer(rowMul: nat, colMul: nat, a: nat, b: nat, rowInv: nat, colInv: nat, aInv: nat, bInv: nat) {
    predicate Valid() {
      && colMul < W && rowMul < W && a < W && b < W
      && rowMul * rowInv % W == 1 && colMul * colInv % W == 1 && a * aInv % W == 1 && b * bInv % W == 1
    }
  }

  /** Golden ratio and murmur3 constants. */
  const MURMUR: Mixer :=
    Mixer(0x9E37_79B1, 0x85EB_CA77, 0x85EB_CA6B, 0xC2B2_AE35, 0x0E8B_2F51, 0xB6C9_2F47, 0xA5CB_9243, 0x7ED1_B41D)

  lemma MurmurValid()
    ensures MURMUR.Valid()
  {
  }

  /** The unsigned word of a signed or larger integer. */
  function Word(x: int): (w: nat)
    ensures w < W
  {
    x % W
  }

  // ---------------------------------------------------------------------------
  // The device hash.
  // ---------------------------------------------------------------------------

  /** One round of the mixer: a xor-shift and an odd multiplication. */
  function Mix(h: nat, k: nat, c: nat): (r: nat)
    ensures r < W
  {
    Mul(ShiftXor(h, k), c)
  }

  function RowMix(m: Mixer, seed: int, row: int): (h: nat)
    ensures h < W
  {
    var h := Mix(Mix(Xor(Mul(Word(row), m.rowMul), Word(seed)), 16, m.a), 13, m.b);
    ShiftXorWord(h, 16);
    ShiftXor(h, 16)
  }

  function ColMix(m: Mixer, rowMix: nat, colWord: nat): (h: nat)
    ensures h < W
  {
    Mix(Mix(Xor(rowMix, colWord), 16, m.a), 13, m.b)
  }

  function ColHash(m: Mixer, rowMix: nat, col: int): (h: nat)
    ensures h < W
  {
    ColMix(m, rowMix, Mul(Word(col), m.colMul))
  }

  function Hash(m: Mixer, seed: int, row: int, col: int): (h: nat)
    ensures h < W
  {
    ColHash(m, RowMix(m, seed, row), col)
  }

  function KeepScale(m: Mixer, seed: int, row: int, col: int, threshold: nat, scale: real): real {
    if Hash(m, seed, row, col) >= threshold then scale else 0.0
  }

  // ---------------------------------------------------------------------------
  // The dropped fraction is exact.
  // ---------------------------------------------------------------------------

  function Unmix(y: nat, k: nat, inv: nat): nat {
    UnshiftXor(Mul(y, inv), k)
  }

  lemma MixInverse(h: nat, k: nat, c: nat, inv: nat)
    requires h < W && k >= 11 && c * inv % W == 1
    ensures Unmix(Mix(h, k, c), k, inv) == h
  {
    ShiftXorWord(h, k);
    MulInverse(ShiftXor(h, k), c, inv);
    UnshiftXorInverse(h, k);
  }

  lemma UnmixInverse(y: nat, k: nat, c: nat, inv: nat)
    requires y < W && k >= 11 && c * inv % W == 1
    ensures Unmix(y, k, inv) < W && Mix(Unmix(y, k, inv), k, c) == y
  {
    ShiftXorInverse(Mul(y, inv), k);
    assert inv * c == c * inv;
    MulInverse(y, inv, c);
  }

  function UncolMix(m: Mixer, rowMix: nat, y: nat): nat {
    Xor(rowMix, Unmix(Unmix(y, 13, m.bInv), 16, m.aInv))
  }

  lemma ColMixInverse(m: Mixer, rowMix: nat, colWord: nat)
    requires m.Valid() && rowMix < W && colWord < W
    ensures UncolMix(m, rowMix, ColMix(m, rowMix, colWord)) == colWord
  {
    var h := Xor(rowMix, colWord);
    XorWord(rowMix, colWord);
    MixInverse(h, 16, m.a, m.aInv);
    MixInverse(Mix(h, 16, m.a), 13, m.b, m.bInv);
    XorComm(rowMix, colWord);
    XorComm(rowMix, h);
    XorCancel(colWord, rowMix);
  }

  lemma UncolMixInverse(m: Mixer, rowMix: nat, y: nat)
    requires m.Valid() && rowMix < W && y < W
    ensures UncolMix(m, rowMix, y) < W && ColMix(m, rowMix, UncolMix(m, rowMix, y)) == y
  {
    var h1 := Unmix(y, 13, m.bInv);
    UnmixInverse(y, 13, m.b, m.bInv);
    var h := Unmix(h1, 16, m.aInv);
    UnmixInverse(h1, 16, m.a, m.aInv);
    XorWord(rowMix, h);
    XorComm(rowMix, h);
    XorComm(rowMix, Xor(rowMix, h));
    XorCancel(h, rowMix);
  }

  /** The column that hashes to y. */
  function Unhash(m: Mixer, rowMix: nat, y: nat): (col: nat)
    ensures col < W
  {
    Mul(UncolMix(m, rowMix, y), m.colInv)
  }

  lemma WordOf(x: nat)
    requires x < W
    ensures Word(x) == x
  {
  }

  lemma UnhashHash(m: Mixer, rowMix: nat, col: nat)
    requires m.Valid() && rowMix < W && col < W
    ensures Unhash(m, rowMix, ColHash(m, rowMix, col)) == col
  {
    WordOf(col);
    ColMixInverse(m, rowMix, Mul(col, m.colMul));
    MulInverse(col, m.colMul, m.colInv);
  }

  lemma HashUnhash(m: Mixer, rowMix: nat, y: nat)
    requires m.Valid() && rowMix < W && y < W
    ensures ColHash(m, rowMix, Unhash(m, rowMix, y)) == y
  {
    var w := UncolMix(m, rowMix, y);
    UncolMixInverse(m, rowMix, y);
    ColumnWord(w, m.colInv, m.colMul);
  }

  lemma ColumnWord(w: nat, inv: nat, c: nat)
    requires w < W && c * inv % W == 1
    ensures Mul(Word(Mul(w, inv)), c) == w
  {
    WordOf(Mul(w, inv));
    assert inv * c == c * inv;
    MulInverse(w, inv, c);
  }

  ghost function DroppedBy(m: Mixer, rowMix: nat, threshold: nat): nat -> bool {
    (col: nat) => ColHash(m, rowMix, col) < threshold
  }

  ghost function HashOf(m: Mixer, rowMix: nat): nat -> nat {
    (col: nat) => ColHash(m, rowMix, col)
  }

  ghost function UnhashOf(m: Mixer, rowMix: nat): nat -> nat {
    (y: nat) => Unhash(m, rowMix, y)
  }

  lemma ColumnsDropExactly(m: Mixer, rowMix: nat, threshold: nat)
    requires m.Valid() && rowMix < W && threshold <= W
    ensures Count(DroppedBy(m, rowMix, threshold), W) == threshold
  {
    var p, q := DroppedBy(m, rowMix, threshold), PoolLayout.Below(threshold);
    var h, g := HashOf(m, rowMix), UnhashOf(m, rowMix);
    forall col: nat | col < W && p(col) ensures h(col) < W && q(h(col)) && g(h(col)) == col {
      UnhashHash(m, rowMix, col);
    }
    forall y: nat | y < W && q(y) ensures g(y) < W && p(g(y)) && h(g(y)) == y {
      HashUnhash(m, rowMix, y);
    }
    CountBijection(p, W, q, W, h, g);
    PoolLayout.CountBelow(threshold, W);
  }

  /** Columns of a pool row that the mask drops. */
  ghost function Dropped(m: Mixer, seed: int, row: int, threshold: nat): nat -> bool {
    DroppedBy(m, RowMix(m, seed, row), threshold)
  }

  /** For a fixed seed and row the hash permutes the 2^32 column words, so exactly `threshold` of them are
    * dropped: the mask has no bias beyond the rounding of the threshold. */
  lemma DropsExactly(m: Mixer, seed: int, row: int, threshold: nat)
    requires m.Valid() && threshold <= W
    ensures Count(Dropped(m, seed, row, threshold), W) == threshold
  {
    ColumnsDropExactly(m, RowMix(m, seed, row), threshold);
  }

  // ---------------------------------------------------------------------------
  // The mask depends on the row and on the seed as it does on the column.
  // ---------------------------------------------------------------------------

  /** The second half of the row mix: its first operand mixed, and shifted once more. */
  function Finish(m: Mixer, h: nat): nat { ShiftXor(ColMix(m, 0, h), 16) }

  function Unfinish(m: Mixer, y: nat): nat { UncolMix(m, 0, UnshiftXor(y, 16)) }

  lemma FinishInverse(m: Mixer, h: nat)
    requires m.Valid() && h < W
    ensures Finish(m, h) < W && Unfinish(m, Finish(m, h)) == h
  {
    ColMixInverse(m, 0, h);
    ShiftXorWord(ColMix(m, 0, h), 16);
    UnshiftXorInverse(ColMix(m, 0, h), 16);
  }

  lemma UnfinishInverse(m: Mixer, y: nat)
    requires m.Valid() && y < W
    ensures Unfinish(m, y) < W && Finish(m, Unfinish(m, y)) == y
  {
    ShiftXorInverse(y, 16);
    UncolMixInverse(m, 0, UnshiftXor(y, 16));
  }

  /** The row mix of a row word and a seed word. */
  lemma RowMixIs(m: Mixer, seed: int, row: int)
    ensures RowMix(m, seed, row) == Finish(m, Xor(Mul(Word(row), m.rowMul), Word(seed)))
  {
    var h := Xor(Mul(Word(row), m.rowMul), Word(seed));
    XorZero(h);
  }

  /** The word under the row mix that column col hashes to y from: the operand of the row half. */
  function UnhashRowMix(m: Mixer, col: nat, y: nat): nat {
    Unfinish(m, UncolMix(m, Mul(Word(col), m.colMul), y))
  }

  /** Column by column, the hash is a permutation of the row half's operand. */
  lemma OperandInverse(m: Mixer, col: nat, h: nat)
    requires m.Valid() && h < W
    ensures UnhashRowMix(m, col, ColHash(m, Finish(m, h), col)) == h
  {
    var c := Mul(Word(col), m.colMul);
    FinishInverse(m, h);
    XorComm(Finish(m, h), c);
    ColMixInverse(m, c, Finish(m, h));
  }

  lemma OperandOnto(m: Mixer, col: nat, y: nat)
    requires m.Valid() && y < W
    ensures UnhashRowMix(m, col, y) < W && ColHash(m, Finish(m, UnhashRowMix(m, col, y)), col) == y
  {
    var c := Mul(Word(col), m.colMul);
    UncolMixInverse(m, c, y);
    UnfinishInverse(m, UncolMix(m, c, y));
    XorComm(UncolMix(m, c, y), c);
  }

  /** The row, and the seed, that hash to y. */
  function UnhashRow(m: Mixer, seed: int, col: nat, y: nat): nat {
    Mul(Xor(UnhashRowMix(m, col, y), Word(seed)), m.rowInv)
  }

  function UnhashSeed(m: Mixer, row: int, col: nat, y: nat): nat {
    Xor(UnhashRowMix(m, col, y), Mul(Word(row), m.rowMul))
  }

  lemma UnhashRowHash(m: Mixer, seed: int, row: nat, col: nat)
    requires m.Valid() && row < W
    ensures UnhashRow(m, seed, col, Hash(m, seed, row, col)) == row
  {
    WordOf(row);
    var r := Mul(row, m.rowMul);
    RowMixIs(m, seed, row);
    XorWord(r, Word(seed));
    OperandInverse(m, col, Xor(r, Word(seed)));
    XorCancel(r, Word(seed));
    MulInverse(row, m.rowMul, m.rowInv);
  }

  lemma HashUnhashRow(m: Mixer, seed: int, col: nat, y: nat)
    requires m.Valid() && y < W
    ensures UnhashRow(m, seed, col, y) < W && Hash(m, seed, UnhashRow(m, seed, col, y), col) == y
  {
    var h, row := UnhashRowMix(m, col, y), UnhashRow(m, seed, col, y);
    OperandOnto(m, col, y);
    XorWord(h, Word(seed));
    ColumnWord(Xor(h, Word(seed)), m.rowInv, m.rowMul);
    RowMixIs(m, seed, row);
    XorCancel(h, Word(seed));
  }

  lemma UnhashSeedHash(m: Mixer, seed: nat, row: int, col: nat)
    requires m.Valid() && seed < W
    ensures UnhashSeed(m, row, col, Hash(m, seed, row, col)) == seed
  {
    WordOf(seed);
    var r := Mul(Word(row), m.rowMul);
    RowMixIs(m, seed, row);
    XorWord(r, seed);
    OperandInverse(m, col, Xor(r, seed));
    XorComm(r, seed);
    XorCancel(seed, r);
  }

  lemma HashUnhashSeed(m: Mixer, row: int, col: nat, y: nat)
    requires m.Valid() && y < W
    ensures UnhashSeed(m, row, col, y) < W && Hash(m, UnhashSeed(m, row, col, y), row, col) == y
  {
    var h, seed := UnhashRowMix(m, col, y), UnhashSeed(m, row, col, y);
    var r := Mul(Word(row), m.rowMul);
    OperandOnto(m, col, y);
    XorWord(h, r);
    WordOf(seed);
    RowMixIs(m, seed, row);
    XorComm(r, seed);
    XorCancel(h, r);
  }

  /** Two rows, two seeds or two columns that differ in one word never hash alike. */
  lemma HashSeparates(m: Mixer, seed: nat, row: nat, col: nat, other: nat)
    requires m.Valid() && seed < W && row < W && col < W && other < W
    ensures other != row ==> Hash(m, seed, other, col) != Hash(m, seed, row, col)
    ensures other != seed ==> Hash(m, other, row, col) != Hash(m, seed, row, col)
    ensures other != col ==> Hash(m, seed, row, other) != Hash(m, seed, row, col)
  {
    UnhashRowHash(m, seed, row, col);
    UnhashRowHash(m, seed, other, col);
    UnhashSeedHash(m, seed, row, col);
    UnhashSeedHash(m, other, row, col);
    UnhashHash(m, RowMix(m, seed, row), col);
    UnhashHash(m, RowMix(m, seed, row), other);
  }

  ghost function RowDropped(m: Mixer, seed: int, col: nat, threshold: nat): nat -> bool {
    (row: nat) => Hash(m, seed, row, col) < threshold
  }

  ghost function SeedDrops(m: Mixer, row: int, col: nat, threshold: nat): nat -> bool {
    (seed: nat) => Hash(m, seed, row, col) < threshold
  }

  /** For a fixed seed, a column is dropped in exactly `threshold` of the 2^32 rows. */
  lemma RowsDropExactly(m: Mixer, seed: int, col: nat, threshold: nat)
    requires m.Valid() && threshold <= W
    ensures Count(RowDropped(m, seed, col, threshold), W) == threshold
  {
    var p, q := RowDropped(m, seed, col, threshold), PoolLayout.Below(threshold);
    var h := (row: nat) => Hash(m, seed, row, col);
    var g := (y: nat) => UnhashRow(m, seed, col, y);
    forall row: nat | row < W && p(row) ensures h(row) < W && q(h(row)) && g(h(row)) == row {
      UnhashRowHash(m, seed, row, col);
    }
    forall y: nat | y < W && q(y) ensures g(y) < W && p(g(y)) && h(g(y)) == y {
      HashUnhashRow(m, seed, col, y);
    }
    CountBijection(p, W, q, W, h, g);
    PoolLayout.CountBelow(threshold, W);
  }

  /** Over the seeds, every unit is dropped exactly `threshold` times in 2^32. */
  lemma SeedsDropExactly(m: Mixer, row: int, col: nat, threshold: nat)
    requires m.Valid() && threshold <= W
    ensures Count(SeedDrops(m, row, col, threshold), W) == threshold
  {
    var p, q := SeedDrops(m, row, col, threshold), PoolLayout.Below(threshold);
    var h := (seed: nat) => Hash(m, seed, row, col);
    var g := (y: nat) => UnhashSeed(m, row, col, y);
    forall seed: nat | seed < W && p(seed) ensures h(seed) < W && q(h(seed)) && g(h(seed)) == seed {
      UnhashSeedHash(m, seed, row, col);
    }
    forall y: nat | y < W && q(y) ensures g(y) < W && p(g(y)) && h(g(y)) == y {
      HashUnhashSeed(m, row, col, y);
    }
    CountBijection(p, W, q, W, h, g);
    PoolLayout.CountBelow(threshold, W);
  }

  // ---------------------------------------------------------------------------
  // Threshold and scale.
  // ---------------------------------------------------------------------------

  datatype Result<T> = Ok(value: T) | ValueError

  /** Round half to even. */
  function Round(x: real): int {
    var f, d := x.Floor, x - x.Floor as real;
    if d < 0.5 || (d == 0.5 && f % 2 == 0) then f else f + 1
  }

  function KeepThreshold(p: real): Result<nat> {
    if !(0.0 <= p < 1.0) then ValueError
    else
      assert p * W as real >= 0.0;
      var t := Round(p * W as real);
      Ok(if t < W - 1 then t else W - 1)
  }

  /** The threshold is within half a word of p * 2^32, so with DropsExactly the dropped fraction is within
    * 2^-33 of p, except that it can be a whole word off at the very top. */
  lemma ThresholdIsFraction(p: real)
    ensures KeepThreshold(p).ValueError? <==> !(0.0 <= p < 1.0)
    ensures 0.0 <= p < 1.0 ==>
              && KeepThreshold(p).value < W
              && p * W as real - 1.0 <= KeepThreshold(p).value as real <= p * W as real + 0.5
              && (p * W as real <= W as real - 1.0 ==> p * W as real - 0.5 <= KeepThreshold(p).value as real)
              && (p * W as real < W as real - 1.0 && (p * W as real).Floor as real + 0.5 == p * W as real
                  ==> KeepThreshold(p).value % 2 == 0)
  {
    if 0.0 <= p < 1.0 {
      var x := p * W as real;
      assert x < W as real;
      assert x.Floor as real <= x < x.Floor as real + 1.0;
    }
  }

  ghost function Factors(m: Mixer, seed: int, row: int, threshold: nat, scale: real): nat -> real {
    (col: nat) => KeepScale(m, seed, row, col, threshold, scale)
  }

  /** A sum of kept factors is the number of the kept times the factor. */
  lemma {:induction false} SumOfKept(f: nat -> real, dropped: nat -> bool, scale: real, n: nat)
    requires forall i: nat :: i < n ==> f(i) == if dropped(i) then 0.0 else scale
    ensures Sum(f, n) == (n - Count(dropped, n)) as real * scale
  {
    if n > 0 {
      SumOfKept(f, dropped, scale, n - 1);
      OneMoreKept(n - 1 - Count(dropped, n - 1), scale);
    }
  }

  lemma OneMoreKept(k: int, scale: real)
    ensures (k + 1) as real * scale == k as real * scale + scale
  {
  }

  /** t of n near p * n, and the n - t others worth 1 / (1 - p) each. */
  lemma WithinHalf(t: nat, n: nat, p: real, scale: real)
    requires 0.0 <= p < 1.0 && scale == 1.0 / (1.0 - p) && p * n as real - 0.5 <= t as real <= p * n as real + 0.5 && t <= n
    ensures n as real - 0.5 * scale <= (n - t) as real * scale <= n as real + 0.5 * scale
  {
    var d, r := 1.0 - p, n as real;
    assert scale > 0.0 && d * scale == 1.0;
    assert r * d * scale == r * (d * scale) == r;
    ScaleLe(r * d - 0.5, (n - t) as real, scale);
    ScaleLe((n - t) as real, r * d + 0.5, scale);
  }

  lemma ScaleLe(a: real, b: real, s: real)
    requires a <= b && s >= 0.0
    ensures a * s <= b * s
  {
  }

  lemma FactorIs(m: Mixer, seed: int, row: int, col: nat, threshold: nat, scale: real)
    ensures Factors(m, seed, row, threshold, scale)(col) == if Dropped(m, seed, row, threshold)(col) then 0.0 else scale
  {
  }

  /** The sum of f is n, up to half a value. */
  ghost predicate NearOnes(f: nat -> real, scale: real, n: nat) {
    n as real - 0.5 * scale <= Sum(f, n) <= n as real + 0.5 * scale
  }

  lemma KeptIsNear(f: nat -> real, dropped: nat -> bool, p: real, scale: real, n: nat, t: nat)
    requires forall i: nat :: i < n ==> f(i) == if dropped(i) then 0.0 else scale
    requires 0.0 <= p < 1.0 && scale == 1.0 / (1.0 - p) && p * n as real - 0.5 <= t as real <= p * n as real + 0.5
    requires t <= n && Count(dropped, n) == t
    ensures NearOnes(f, scale, n)
  {
    SumOfKept(f, dropped, scale, n);
    WithinHalf(t, n, p, scale);
  }

  /** Inverted dropout: over any range of columns of which `threshold` are dropped, as DropsExactly says of all
    * words, with the threshold rounded from p times their number, as ThresholdIsFraction says, the factors of a
    * row average to one up to that rounding: the expected activation is unchanged. */
  lemma MaskIsUnbiased(m: Mixer, seed: int, row: int, p: real, threshold: nat, scale: real, n: nat)
    requires 0.0 <= p < 1.0 && scale == 1.0 / (1.0 - p) && p * n as real - 0.5 <= threshold as real <= p * n as real + 0.5
    requires threshold <= n && Count(Dropped(m, seed, row, threshold), n) == threshold
    ensures NearOnes(Factors(m, seed, row, threshold, scale), scale, n)
  {
    var f, dropped := Factors(m, seed, row, threshold, scale), Dropped(m, seed, row, threshold);
    forall col: nat | col < n ensures f(col) == if dropped(col) then 0.0 else scale {
      FactorIs(m, seed, row, col, threshold, scale);
    }
    KeptIsNear(f, dropped, p, scale, n, threshold);
  }

  // ---------------------------------------------------------------------------
  // The host mirror.
  // ---------------------------------------------------------------------------

  const INT64_MAX: nat := 0x7FFF_FFFF_FFFF_FFFF

  /** The mirror's product: the constant is split so that 64-bit partial products suffice. */
  function Mul32(a: nat, c: nat): nat {
    (a * (c % 0x1_0000) + a * (c / 0x1_0000) % 0x1_0000 * 0x1_0000) % W
  }

  /** It is multiplication modulo 2^32, and none of its intermediate values leaves the 64-bit range. */
  lemma Mul32IsMul(a: nat, c: nat)
    requires a < W && c < W
    ensures Mul32(a, c) == Mul(a, c)
    ensures a * (c % 0x1_0000) + a * (c / 0x1_0000) % 0x1_0000 * 0x1_0000 <= INT64_MAX
    ensures a * (c / 0x1_0000) <= INT64_MAX
  {
    var lo, hi := c % 0x1_0000, c / 0x1_0000;
    assert c == hi * 0x1_0000 + lo;
    var q, r := a * hi / 0x1_0000, a * hi % 0x1_0000;
    assert a * hi == q * 0x1_0000 + r;
    assert a * c == a * hi * 0x1_0000 + a * lo;
    assert a * c == q * W + (a * lo + r * 0x1_0000);
    SameMod(a * c, q, a * lo + r * 0x1_0000);
    MulLe(a, W, lo);
    MulLe(lo, 0x1_0000, W);
    MulLe(a, W, hi);
    MulLe(hi, 0x1_0000, W);
  }

  lemma SameMod(n: nat, q: nat, m: nat)
    requires n == q * W + m
    ensures n % W == m % W
  {
    ModUnique(n, q + m / W, m % W);
  }

  function MixRef(h: nat, k: nat, c: nat): nat {
    Mul32(ShiftXor(h, k), c)
  }

  function RowMixRef(m: Mixer, seed: int, row: nat): nat {
    ShiftXor(MixRef(MixRef(Xor(Mul32(row, m.rowMul), Word(seed)), 16, m.a), 13, m.b), 16)
  }

  function ColHashRef(m: Mixer, rowMix: nat, col: nat): nat {
    MixRef(MixRef(Xor(rowMix, Mul32(col, m.colMul)), 16, m.a), 13, m.b)
  }

  function HashRef(m: Mixer, seed: int, row: nat, col: nat): nat {
    ColHashRef(m, RowMixRef(m, seed, row), col)
  }

  lemma MixRefAgrees(h: nat, k: nat, c: nat)
    requires h < W && c < W
    ensures MixRef(h, k, c) == Mix(h, k, c)
  {
    ShiftXorWord(h, k);
    Mul32IsMul(ShiftXor(h, k), c);
  }

  function KeepScaleRef(m: Mixer, seed: int, row: nat, col: nat, p: real): Result<real> {
    match KeepThreshold(p)
    case Ok(t) => Ok(if HashRef(m, seed, row, col) >= t then 1.0 / (1.0 - p) else 0.0)
    case ValueError => ValueError
  }

  lemma TwoMixes(m: Mixer, h: nat)
    requires m.Valid() && h < W
    ensures MixRef(MixRef(h, 16, m.a), 13, m.b) == Mix(Mix(h, 16, m.a), 13, m.b)
  {
    MixRefAgrees(h, 16, m.a);
    MixRefAgrees(Mix(h, 16, m.a), 13, m.b);
  }

  lemma RowRefAgrees(m: Mixer, seed: int, row: nat)
    requires m.Valid() && row < W
    ensures RowMixRef(m, seed, row) == RowMix(m, seed, row)
  {
    WordOf(row);
    Mul32IsMul(row, m.rowMul);
    XorWord(Mul(row, m.rowMul), Word(seed));
    TwoMixes(m, Xor(Mul(row, m.rowMul), Word(seed)));
  }

  lemma ColRefAgrees(m: Mixer, rowMix: nat, col: nat)
    requires m.Valid() && rowMix < W && col < W
    ensures ColHashRef(m, rowMix, col) == ColHash(m, rowMix, col)
  {
    WordOf(col);
    Mul32IsMul(col, m.colMul);
    XorWord(rowMix, Mul(col, m.colMul));
    TwoMixes(m, Xor(rowMix, Mul(col, m.colMul)));
  }

  lemma HashRefAgrees(m: Mixer, seed: int, row: nat, col: nat)
    requires m.Valid() && row < W && col < W
    ensures HashRef(m, seed, row, col) == Hash(m, seed, row, col)
  {
    RowRefAgrees(m, seed, row);
    ColRefAgrees(m, RowMix(m, seed, row), col);
  }

  /** The mirror and the device mask agree on every row and column word, and raise together. */
  lemma MirrorAgrees(m: Mixer, seed: int, row: nat, col: nat, p: real)
    requires m.Valid() && row < W && col < W
    ensures KeepScaleRef(m, seed, row, col, p) ==
              if 0.0 <= p < 1.0 then Ok(KeepScale(m, seed, row, col, KeepThreshold(p).value, 1.0 / (1.0 - p))) else ValueError
  {
    HashRefAgrees(m, seed, row, col);
  }

  // ---------------------------------------------------------------------------
  // The two tilings.
  // ---------------------------------------------------------------------------

  /** One dropout draw: the seed of the pass and what its probability comes to. */
  datatype Draw = Draw(m: Mixer, seed: int, threshold: nat, scale: real) {
    /** The factor of every (pool row, activation column). */
    function Mask(): (nat, nat) -> real { (row: nat, col: nat) => KeepScale(m, seed, row, col, threshold, scale) }
  }

  /** The draw of a seed and a probability. */
  function DrawFor(m: Mixer, seed: int, p: real): Draw
    requires 0.0 <= p < 1.0
  {
    Draw(m, seed, KeepThreshold(p).value, 1.0 / (1.0 - p))
  }

  /** The mirror's factors. */
  function RefMask(m: Mixer, seed: int, p: real): (nat, nat) -> real
    requires 0.0 <= p < 1.0
  {
    (row: nat, col: nat) => KeepScaleRef(m, seed, row, col, p).value
  }

  /** They are those of the kernels. */
  lemma MirrorIsMask(m: Mixer, seed: int, p: real, row: nat, col: nat)
    requires m.Valid() && row < W && col < W && 0.0 <= p < 1.0
    ensures RefMask(m, seed, p)(row, col) == DrawFor(m, seed, p).Mask()(row, col)
  {
    MirrorAgrees(m, seed, row, col, p);
  }

  lemma EvenOrigin(pidN: nat, tileN: nat)
    requires tileN % 2 == 0
    ensures pidN * tileN % 2 == 0
  {
    assert pidN * tileN == 2 * (pidN * (tileN / 2));
  }

  /** Tiles of a dividing width end where the next one starts, the last one at the end of the row. */
  lemma TileEnds(n: nat, tileN: nat, pidN: nat)
    requires tileN > 0 && n % tileN == 0 && pidN < n / tileN
    ensures (pidN + 1) * tileN == pidN * tileN + tileN <= n
  {
    assert n / tileN * tileN == n;
    MulLe(pidN + 1, n / tileN, tileN);
  }

  /** A row of a forward tile: the accumulator has 2I columns, and element i sits on columns 2i and 2i + 1. */
  method ForwardRow(mask: (nat, nat) -> real, row: nat, pidN: nat, tileN: nat, aux: array2<real>)
    requires tileN % 2 == 0 && pidN * tileN + tileN <= 2 * aux.Length1 && row < aux.Length0
    modifies aux
    ensures forall s: nat, i: nat :: s < aux.Length0 && i < aux.Length1 ==>
              aux[s, i] == if s == row && pidN * tileN <= 2 * i < pidN * tileN + tileN
                           then old(aux[s, i]) * mask(s, i) else old(aux[s, i])
  {
    var col0 := pidN * tileN;
    EvenOrigin(pidN, tileN);
    for u := 0 to tileN / 2
      invariant forall s: nat, i: nat :: s < aux.Length0 && i < aux.Length1 ==>
                  aux[s, i] == if s == row && col0 <= 2 * i < col0 + 2 * u
                               then old(aux[s, i]) * mask(s, i) else old(aux[s, i])
    {
      var col := (col0 + 2 * u) / 2;
      aux[row, col] := aux[row, col] * mask(row, col);
    }
  }

  method BackwardRow(mask: (nat, nat) -> real, row: nat, pidN: nat, tileN: nat, g: array2<real>)
    requires pidN * tileN + tileN <= g.Length1 && row < g.Length0
    modifies g
    ensures forall s: nat, i: nat :: s < g.Length0 && i < g.Length1 ==>
              g[s, i] == if s == row && pidN * tileN <= i < pidN * tileN + tileN
                         then old(g[s, i]) * mask(s, i) else old(g[s, i])
  {
    var col0 := pidN * tileN;
    for u := 0 to tileN
      invariant forall s: nat, i: nat :: s < g.Length0 && i < g.Length1 ==>
                  g[s, i] == if s == row && col0 <= i < col0 + u then old(g[s, i]) * mask(s, i) else old(g[s, i])
    {
      g[row, col0 + u] := g[row, col0 + u] * mask(row, col0 + u);
    }
  }

  /** A pool row in the forward pass: every column once, with the pool row's number and its own. */
  method ForwardSlot(mask: (nat, nat) -> real, row: nat, tileN: nat, aux: array2<real>)
    requires tileN > 0 && tileN % 2 == 0 && 2 * aux.Length1 % tileN == 0 && row < aux.Length0
    modifies aux
    ensures forall s: nat, i: nat :: s < aux.Length0 && i < aux.Length1 ==>
              aux[s, i] == if s == row then old(aux[s, i]) * mask(s, i) else old(aux[s, i])
  {
    var tiles := 2 * aux.Length1 / tileN;
    assert tiles * tileN == 2 * aux.Length1;
    for pidN := 0 to tiles
      invariant forall s: nat, i: nat :: s < aux.Length0 && i < aux.Length1 ==>
                  aux[s, i] == if s == row && 2 * i < pidN * tileN then old(aux[s, i]) * mask(s, i) else old(aux[s, i])
    {
      TileEnds(2 * aux.Length1, tileN, pidN);
      ForwardRow(mask, row, pidN, tileN, aux);
    }
  }

  method BackwardSlot(mask: (nat, nat) -> real, row: nat, tileN: nat, g: array2<real>)
    requires tileN > 0 && g.Length1 % tileN == 0 && row < g.Length0
    modifies g
    ensures forall s: nat, i: nat :: s < g.Length0 && i < g.Length1 ==>
              g[s, i] == if s == row then old(g[s, i]) * mask(s, i) else old(g[s, i])
  {
    var tiles := g.Length1 / tileN;
    assert tiles * tileN == g.Length1;
    for pidN := 0 to tiles
      invariant forall s: nat, i: nat :: s < g.Length0 && i < g.Length1 ==>
                  g[s, i] == if s == row && i < pidN * tileN then old(g[s, i]) * mask(s, i) else old(g[s, i])
    {
      TileEnds(g.Length1, tileN, pidN);
      BackwardRow(mask, row, pidN, tileN, g);
    }
  }

  /** The pool row a kernel hashes for row m of tile t: cu_seqlens_m of the decoded expert, plus pid_m tiles,
    * plus m. It is the slot. */
  method HashedRow(prm: TileScheduler.Params, tileM: nat, t: nat, m: nat) returns (row: nat)
    requires prm.Valid() && t < prm.totalTiles && m < tileM
    ensures row == t * tileM + m
  {
    var expert, cum := TileScheduler.BallotExpert(prm, t);
    var pidM := t - cum;
    var cuSeqlensM := cum * tileM;
    row := cuSeqlensM + pidM * tileM + m;
    TileScheduler.FirstRow(cum, pidM, tileM);
  }

  lemma RowOfTile(tiles: nat, tileM: nat, t: nat)
    requires t < tiles
    ensures t * tileM + tileM == (t + 1) * tileM <= tiles * tileM
  {
    MulLe(t + 1, tiles, tileM);
  }

  /** The rows of tile t in the forward pass. */
  method ForwardTile(mask: (nat, nat) -> real, prm: TileScheduler.Params, tileM: nat, tileN: nat, t: nat, aux: array2<real>)
    requires prm.Valid() && t < prm.totalTiles && t * tileM + tileM <= aux.Length0
    requires tileN > 0 && tileN % 2 == 0 && 2 * aux.Length1 % tileN == 0
    modifies aux
    ensures forall s: nat, i: nat :: s < aux.Length0 && i < aux.Length1 ==>
              aux[s, i] == if t * tileM <= s < t * tileM + tileM then old(aux[s, i]) * mask(s, i) else old(aux[s, i])
  {
    for m := 0 to tileM
      invariant forall s: nat, i: nat :: s < aux.Length0 && i < aux.Length1 ==>
                  aux[s, i] == if t * tileM <= s < t * tileM + m then old(aux[s, i]) * mask(s, i) else old(aux[s, i])
    {
      var row := HashedRow(prm, tileM, t, m);
      ForwardSlot(mask, row, tileN, aux);
    }
  }

  method ForwardPool(mask: (nat, nat) -> real, prm: TileScheduler.Params, tileM: nat, tileN: nat, aux: array2<real>)
    requires prm.Valid() && aux.Length0 == prm.totalTiles * tileM
    requires tileN > 0 && tileN % 2 == 0 && 2 * aux.Length1 % tileN == 0
    modifies aux
    ensures forall s: nat, i: nat :: s < aux.Length0 && i < aux.Length1 ==> aux[s, i] == old(aux[s, i]) * mask(s, i)
  {
    for t := 0 to prm.totalTiles
      invariant forall s: nat, i: nat :: s < aux.Length0 && i < aux.Length1 ==>
                  aux[s, i] == if s < t * tileM then old(aux[s, i]) * mask(s, i) else old(aux[s, i])
    {
      RowOfTile(prm.totalTiles, tileM, t);
      ForwardTile(mask, prm, tileM, tileN, t, aux);
    }
  }

  /** The rows of tile t in the backward pass. */
  method BackwardTile(mask: (nat, nat) -> real, prm: TileScheduler.Params, tileM: nat, tileN: nat, t: nat, g: array2<real>)
    requires prm.Valid() && t < prm.totalTiles && t * tileM + tileM <= g.Length0
    requires tileN > 0 && g.Length1 % tileN == 0
    modifies g
    ensures forall s: nat, i: nat :: s < g.Length0 && i < g.Length1 ==>
              g[s, i] == if t * tileM <= s < t * tileM + tileM then old(g[s, i]) * mask(s, i) else old(g[s, i])
  {
    for m := 0 to tileM
      invariant forall s: nat, i: nat :: s < g.Length0 && i < g.Length1 ==>
                  g[s, i] == if t * tileM <= s < t * tileM + m then old(g[s, i]) * mask(s, i) else old(g[s, i])
    {
      var row := HashedRow(prm, tileM, t, m);
      BackwardSlot(mask, row, tileN, g);
    }
  }

  method BackwardPool(mask: (nat, nat) -> real, prm: TileScheduler.Params, tileM: nat, tileN: nat, g: array2<real>)
    requires prm.Valid() && g.Length0 == prm.totalTiles * tileM
    requires tileN > 0 && g.Length1 % tileN == 0
    modifies g
    ensures forall s: nat, i: nat :: s < g.Length0 && i < g.Length1 ==> g[s, i] == old(g[s, i]) * mask(s, i)
  {
    for t := 0 to prm.totalTiles
      invariant forall s: nat, i: nat :: s < g.Length0 && i < g.Length1 ==>
                  g[s, i] == if s < t * tileM then old(g[s, i]) * mask(s, i) else old(g[s, i])
    {
      RowOfTile(prm.totalTiles, tileM, t);
      BackwardTile(mask, prm, tileM, tileN, t, g);
    }
  }

  /** The forward kernel over the whole pool: every (slot, i) is scaled once, by the hash of the seed, the slot
    * and i. */
  method ForwardMask(d: Draw, prm: TileScheduler.Params, tileM: nat, tileN: nat, aux: array2<real>)
    requires prm.Valid() && aux.Length0 == prm.totalTiles * tileM
    requires tileN > 0 && tileN % 2 == 0 && 2 * aux.Length1 % tileN == 0
    modifies aux
    ensures forall s: nat, i: nat :: s < aux.Length0 && i < aux.Length1 ==>
              aux[s, i] == old(aux[s, i]) * d.Mask()(s, i)
  {
    ForwardPool(d.Mask(), prm, tileM, tileN, aux);
  }

  /** The backward kernel tiles the I columns themselves, with a width of its own, and scales every (slot, i)
    * once by the very factor of the forward kernel. */
  method BackwardMask(d: Draw, prm: TileScheduler.Params, tileM: nat, tileN: nat, g: array2<real>)
    requires prm.Valid() && g.Length0 == prm.totalTiles * tileM
    requires tileN > 0 && g.Length1 % tileN == 0
    modifies g
    ensures forall s: nat, i: nat :: s < g.Length0 && i < g.Length1 ==>
              g[s, i] == old(g[s, i]) * d.Mask()(s, i)
  {
    BackwardPool(d.Mask(), prm, tileM, tileN, g);
  }
}
