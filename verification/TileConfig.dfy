/** The tile picker: power-of-two fallback, shape defaults, validation, and the overlay of a caller's
  * overrides. */
module TileConfig {
  import opened Arith
  import opened Words
  import KernelY
  import KernelYCompletion

  datatype Option<T> = Some(value: T) | None

  datatype Result<T> = Ok(value: T) | ValueError | ZeroDivision

  /** The knobs that validation reads, and the others in declaration order. */
  datatype Config = Config(
    tileM: Option<int>,
    tileNA: Option<int>, tileNY: Option<int>, tileNYBwd: Option<int>, tileNABwd: Option<int>,
    tileNDW1: Option<int>, tileNDW2: Option<int>,
    others: seq<Option<int>>
  )

  /** t is the largest power of two up to cap that divides x. */
  ghost predicate LargestDivisor(x: nat, cap: nat, t: nat) {
    && t <= cap && (exists j: nat :: t == Pow2(j)) && x % Pow(t) == 0
    && forall j: nat :: Pow2(j) <= cap && x % Pow2(j) == 0 ==> Pow2(j) <= t
  }

  function Pow(t: nat): (p: nat)
    ensures p > 0
  {
    if t == 0 then 1 else t
  }

  method LargestPow2Divisor(x: nat, cap: nat) returns (t: nat)
    requires exists j: nat :: cap == Pow2(j)
    ensures 0 < t && LargestDivisor(x, cap, t)
  {
    ghost var j: nat :| cap == Pow2(j);
    ghost var top := j;
    t := cap;
    while t > 1 && x % t != 0
      invariant t == Pow2(j) && j <= top && t <= cap
      invariant forall k: nat :: j < k <= top ==> x % Pow2(k) != 0
      decreases t
    {
      t := t / 2;
      j := j - 1;
    }
    forall k: nat | Pow2(k) <= cap && x % Pow2(k) == 0 ensures Pow2(k) <= t {
      if k <= j {
        Pow2Mono(k, j);
      } else if top < k {
        Pow2Mono(top + 1, k);
      }
    }
  }

  // ---------------------------------------------------------------------------
  // Validation.
  // ---------------------------------------------------------------------------

  predicate Divides(d: int, n: int) { d != 0 && n % d == 0 }

  predicate UpTo128(o: Option<int>) { o == None || o.value <= 128 }

  /** One CTA per output tile: every output tile must divide its dimension; and the tile heights that the
    * backward cannot generate are out. */
  predicate Acceptable(c: Config, i: int, h: int) {
    && c.tileM != Some(320)
    && (c.tileM == Some(192) ==> UpTo128(c.tileNA) && UpTo128(c.tileNY) && UpTo128(c.tileNYBwd) && UpTo128(c.tileNABwd)
                                 && UpTo128(c.tileNDW1) && UpTo128(c.tileNDW2))
    && (c.tileNA.Some? ==> Divides(c.tileNA.value, 2 * i) && Divides(c.tileNA.value, i))
    && (c.tileNY.Some? ==> Divides(c.tileNY.value, h))
    && (c.tileNYBwd.Some? ==> Divides(c.tileNYBwd.value, i))
    && (c.tileNABwd.Some? ==> Divides(c.tileNABwd.value, h))
  }

  predicate AnyZero(c: Config) {
    c.tileNA == Some(0) || c.tileNY == Some(0) || c.tileNYBwd == Some(0) || c.tileNABwd == Some(0)
  }

  /** How many of the tile widths are over 128. */
  method CountWide(c: Config) returns (over: nat)
    ensures over == 0 <==> UpTo128(c.tileNA) && UpTo128(c.tileNY) && UpTo128(c.tileNYBwd) && UpTo128(c.tileNABwd)
                           && UpTo128(c.tileNDW1) && UpTo128(c.tileNDW2)
  {
    var knobs := [c.tileNA, c.tileNY, c.tileNYBwd, c.tileNABwd, c.tileNDW1, c.tileNDW2];
    over := 0;
    for k := 0 to |knobs|
      invariant over == 0 <==> forall j :: 0 <= j < k ==> UpTo128(knobs[j])
    {
      if knobs[k].Some? && knobs[k].value > 128 {
        over := over + 1;
      }
    }
    assert over == 0 <==> UpTo128(knobs[0]) && UpTo128(knobs[1]) && UpTo128(knobs[2])
                          && UpTo128(knobs[3]) && UpTo128(knobs[4]) && UpTo128(knobs[5]);
  }

  /** The checks in order, collecting errors; a zero tile divides by zero on the way. */
  method Validate(c: Config, i: int, h: int) returns (r: Result<()>)
    ensures r.ZeroDivision? <==> AnyZero(c)
    ensures r.Ok? <==> Acceptable(c, i, h)
  {
    var errs := 0;
    if c.tileM == Some(320) {
      errs := errs + 1;
    } else if c.tileM == Some(192) {
      var over := CountWide(c);
      if over > 0 {
        errs := errs + 1;
      }
    }
    if c.tileNA.Some? {
      if c.tileNA.value == 0 {
        return ZeroDivision;
      }
      if (2 * i) % c.tileNA.value != 0 || i % c.tileNA.value != 0 {
        errs := errs + 1;
      }
    }
    if c.tileNY.Some? {
      if c.tileNY.value == 0 {
        return ZeroDivision;
      }
      if h % c.tileNY.value != 0 {
        errs := errs + 1;
      }
    }
    if c.tileNYBwd.Some? {
      if c.tileNYBwd.value == 0 {
        return ZeroDivision;
      }
      if i % c.tileNYBwd.value != 0 {
        errs := errs + 1;
      }
    }
    if c.tileNABwd.Some? {
      if c.tileNABwd.value == 0 {
        return ZeroDivision;
      }
      if h % c.tileNABwd.value != 0 {
        errs := errs + 1;
      }
    }
    r := if errs > 0 then ValueError else Ok(());
  }

  // ---------------------------------------------------------------------------
  // Defaults and overrides.
  // ---------------------------------------------------------------------------

  /** The preferred width where it divides, else the largest power of two up to the cap that does. */
  ghost predicate Picked(preferred: nat, constraint: nat, cap: nat, t: int) {
    if preferred > 0 && constraint % preferred == 0 then t == preferred else t > 0 && LargestDivisor(constraint, cap, t)
  }

  method Pick(preferred: nat, constraint: nat, cap: nat) returns (t: nat)
    requires preferred > 0 && exists j: nat :: cap == Pow2(j)
    ensures 0 < t && constraint % t == 0
    ensures Picked(preferred, constraint, cap, t)
  {
    if constraint % preferred == 0 {
      return preferred;
    }
    t := LargestPow2Divisor(constraint, cap);
  }

  lemma Caps()
    ensures Pow2(8) == 256 && Pow2(7) == 128
  {
  }

  /** A width picked for the 2I columns of kernel A's accumulator that divides I too is the one for I. */
  lemma NarrowPick(i: nat, t: nat)
    requires t > 0 && Picked(192, 2 * i, 256, t) && i % t == 0
    ensures Picked(192, i, 256, t)
  {
    if i % 192 == 0 {
      TwiceDivides(i, 192);
    } else if 2 * i % 192 != 0 {
      LargestOfHalf(i, t);
    }
  }

  lemma LargestOfHalf(i: nat, t: nat)
    requires t > 0 && LargestDivisor(2 * i, 256, t) && i % t == 0
    ensures LargestDivisor(i, 256, t)
  {
    forall j: nat | Pow2(j) <= 256 && i % Pow2(j) == 0 ensures Pow2(j) <= t {
      TwiceDivides(i, Pow2(j));
    }
  }

  /** Where it does not divide I, neither does 192. */
  lemma NotPreferred(i: nat, t: nat)
    requires t > 0 && Picked(192, 2 * i, 256, t) && i % t != 0
    ensures i % 192 != 0
  {
    if i % 192 == 0 {
      TwiceDivides(i, 192);
    }
  }

  const DEFAULT_OTHERS: seq<Option<int>> :=
    // tile_m_dW1, tile_m_dW2, clusters, pingpong, swizzle, SM counts
    [None, None, Some(2), Some(2), Some(1), Some(1), Some(0), Some(0), Some(8), Some(8), None, None, None, None]

  lemma TwiceDivides(i: nat, t: nat)
    requires t > 0 && i % t == 0
    ensures 2 * i % t == 0
  {
    assert i == i / t * t;
    DivUnique(2 * i, 2 * (i / t), 0, t);
  }

  /** The shape-picked baseline: what every knob is for every shape. It always passes validation. */
  ghost predicate Baseline(c: Config, i: nat, h: nat) {
    && c.tileM == Some(128) && c.tileNDW1 == Some(256) && c.tileNDW2 == None
    && c.tileNA.Some? && Picked(192, i, 256, c.tileNA.value)
    && c.tileNY.Some? && Picked(256, h, 256, c.tileNY.value) && c.tileNABwd == c.tileNY
    && c.tileNYBwd.Some? && Picked(192, i, 128, c.tileNYBwd.value)
    // tile_m_dW1, tile_m_dW2, then clusters, pingpong, swizzle, and the SM counts
    && |c.others| == 14 && c.others[..2] == [None, None] && c.others[2..6] == [Some(2), Some(2), Some(1), Some(1)]
    && c.others[6..8] == [Some(0), Some(0)] && c.others[8..10] == [Some(8), Some(8)]
    && c.others[10..] == [None, None, None, None]
  }


  method DefaultTileConfig(i: nat, h: nat) returns (c: Config)
    requires i >= 1 && h >= 1
    ensures Acceptable(c, i, h) && Baseline(c, i, h)
    ensures c.tileNY.value > 0 && LargestDivisor(h, 256, c.tileNY.value)
    ensures 0 < c.tileNYBwd.value <= 192
  {
    Caps();
    assert exists j: nat :: 256 == Pow2(j) by { assert 256 == Pow2(8); }
    assert exists j: nat :: 128 == Pow2(j) by { assert 128 == Pow2(7); }
    var tileNA := Pick(192, 2 * i, 256);
    if i % tileNA != 0 {
      NotPreferred(i, tileNA);
      tileNA := LargestPow2Divisor(i, 256);
    } else {
      NarrowPick(i, tileNA);
    }
    TwiceDivides(i, tileNA);
    var tileNY := Pick(256, h, 256);
    var tileNYBwd := Pick(192, i, 128);
    var tileNABwd := Pick(256, h, 256);
    SameLargest(h, 256, tileNY, tileNABwd);
    c := Config(Some(128), Some(tileNA), Some(tileNY), Some(tileNYBwd), Some(tileNABwd), Some(256), None, DEFAULT_OTHERS);
  }

  lemma SameLargest(x: nat, cap: nat, t: nat, t': nat)
    requires (t == cap && t' == cap) || (LargestDivisor(x, cap, t) && LargestDivisor(x, cap, t'))
    ensures t == t'
  {
    if LargestDivisor(x, cap, t) && LargestDivisor(x, cap, t') {
      var j: nat :| t == Pow2(j);
      var j': nat :| t' == Pow2(j');
    }
  }

  function Overlay(base: Option<int>, over: Option<int>): Option<int> {
    if over.Some? then over else base
  }

  function OverlayAll(base: Config, over: Config): Config
    requires |base.others| == |over.others|
  {
    Config(Overlay(base.tileM, over.tileM), Overlay(base.tileNA, over.tileNA), Overlay(base.tileNY, over.tileNY),
           Overlay(base.tileNYBwd, over.tileNYBwd), Overlay(base.tileNABwd, over.tileNABwd),
           Overlay(base.tileNDW1, over.tileNDW1), Overlay(base.tileNDW2, over.tileNDW2),
           seq(|base.others|, k requires 0 <= k < |base.others| => Overlay(base.others[k], over.others[k])))
  }

  /** A knob of the result is the caller's where the caller set it and the shape-picked one elsewhere. */
  predicate Honours(base: Option<int>, over: Option<int>, c: Option<int>) {
    (over.Some? ==> c == over) && (over.None? ==> c == base)
  }

  /** Either an error, exactly when the overlaid configuration is not acceptable, or an acceptable configuration
    * that keeps every override and every shape-picked value that was not overridden. */
  method ResolveTileConfig(over: Option<Config>, i: nat, h: nat) returns (r: Result<Config>, ghost base: Config)
    requires i >= 1 && h >= 1 && (over.Some? ==> |over.value.others| == 14)
    ensures Baseline(base, i, h) && Acceptable(base, i, h)
    ensures over.None? ==> r == Ok(base)
    ensures over.Some? ==> (r.Ok? <==> Acceptable(OverlayAll(base, over.value), i, h))
    ensures r.Ok? ==> Acceptable(r.value, i, h) && |r.value.others| == 14
    ensures r.Ok? && over.Some? ==>
              && Honours(base.tileM, over.value.tileM, r.value.tileM) && Honours(base.tileNA, over.value.tileNA, r.value.tileNA)
              && Honours(base.tileNY, over.value.tileNY, r.value.tileNY)
              && Honours(base.tileNYBwd, over.value.tileNYBwd, r.value.tileNYBwd)
              && Honours(base.tileNABwd, over.value.tileNABwd, r.value.tileNABwd)
              && Honours(base.tileNDW1, over.value.tileNDW1, r.value.tileNDW1)
              && Honours(base.tileNDW2, over.value.tileNDW2, r.value.tileNDW2)
              && (forall k: nat :: k < 14 ==> Honours(base.others[k], over.value.others[k], r.value.others[k]))
  {
    var cfg := DefaultTileConfig(i, h);
    base := cfg;
    if over.Some? {
      cfg := OverlayAll(cfg, over.value);
    }
    var v := Validate(cfg, i, h);
    r := match v case Ok(_) => Ok(cfg) case ValueError => ValueError case ZeroDivision => ZeroDivision;
  }

  // ---------------------------------------------------------------------------
  // The default tiles and kernel Y's stripe gate.
  // ---------------------------------------------------------------------------

  lemma EvenStripes(h: nat, t: nat)
    requires t > 0 && h % t == 0
    ensures h / t % 2 == 0 <==> h % (2 * t) == 0
  {
    var n := h / t;
    var k := n / 2;
    TwiceFactor(k, t);
    if n % 2 == 0 {
      assert n == 2 * k && h == n * t;
      DivUnique(h, k, 0, 2 * t);
    } else {
      assert n == 2 * k + 1 && h == n * t;
      DivUnique(h, k, t, 2 * t);
    }
  }

  lemma TwiceFactor(k: nat, t: nat)
    ensures 2 * k * t == k * (2 * t) && (2 * k + 1) * t == k * (2 * t) + t
  {
  }

  lemma Multiple512(h: nat)
    ensures h % 512 == 0 ==> h % Pow2(8) == 0
  {
    Caps();
  }

  /** The default kernel Y tile leaves an even number of column tiles exactly when H is a multiple of 512. */
  lemma DefaultStripesEvenIff(h: nat, t: nat)
    requires h >= 1 && t > 0 && LargestDivisor(h, 256, t)
    ensures h % t == 0 && (h / t % 2 == 0 <==> h % 512 == 0)
  {
    EvenStripes(h, t);
    if t < 256 {
      NoDouble(h, t);
      Multiple512(h);
    }
  }

  /** Twice the largest divisor below the cap does not divide. */
  lemma NoDouble(h: nat, t: nat)
    requires LargestDivisor(h, 256, t) && t < 256
    ensures h % (2 * Pow(t)) != 0 && h % Pow2(8) != 0
  {
    Caps();
    var j: nat :| t == Pow2(j);
    assert Pow2(j + 1) == 2 * t;
    if j >= 8 {
      Pow2Mono(8, j);
    }
    Pow2Mono(j + 1, 8);
  }

  /** Kernel Y is launched with clusters of two. If both peers of every claim run their epilogue, its stripe gate
    * counts what runs, and so is safe, at the default tile exactly when H is a multiple of 512. */
  lemma DefaultGateIff(c: KernelY.Config, h: nat)
    requires c.Valid() && c.clusterN == 2 && h >= 1 && c.tileN > 0
    requires LargestDivisor(h, 256, c.tileN) && c.stripes == h / c.tileN
    requires c.running == c.ClaimsPerTile() * c.clusterN
    ensures c.running == c.stripes <==> h % 512 == 0
  {
    DefaultStripesEvenIff(h, c.tileN);
    KernelYCompletion.AllPeersIff(c);
  }
}
