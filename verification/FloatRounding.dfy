/** static_cast<float> of a double: round to nearest, ties to even, on a 24-bit significand. */
module FloatRounding {
  import opened Values
  import opened Arithmetic
  import opened BitWords
  import opened Rounding

  const TWO_29: nat := 0x2000_0000

  const TWO_128: nat := 0x1_0000_0000_0000_0000_0000_0000_0000_0000

  /** 2^1074: every double is a whole number of these fractions. */
  const SCALE: nat := FINEST * TWO_128 * 0x4_0000_0000_0000

  /** 2^896: the finest floats are 2^29 times as many of them apart. */
  const FINEST: nat := TWO_128 * TWO_128 * TWO_128 * TWO_128 * TWO_128 * TWO_128 * TWO_128

  /** Above every finite float; it stands for infinity, which compares with floats in the same way. */
  const INFINITE: nat := TWO_128 * SCALE

  /** Distance of neighbouring floats: 24 bits are 53 bits less 29. */
  function Spacing(n: nat): (u: nat)
    ensures u > 0
  {
    TWO_29 * Rounding.Ulp(n, FINEST)
  }

  function Narrowed(n: nat): int {
    var f := RoundTo(n, Spacing(n));
    if f > INFINITE then INFINITE else f
  }

  function ToUnits(scale: nat): real -> int {
    (r: real) => (r * scale as real).Floor
  }

  function FromUnits(scale: nat): int -> real {
    (n: int) => if scale == 0 then 0.0 else n as real / scale as real
  }

  /** Rounding on the whole numbers of units. */
  function Positive(r: real, up: real -> int, down: int -> real): real {
    if up(r) < 0 then 0.0 else down(Narrowed(up(r)))
  }

  function ToFloat(r: real): real {
    if r >= 0.0 then Positive(r, ToUnits(SCALE), FromUnits(SCALE)) else -Positive(-r, ToUnits(SCALE), FromUnits(SCALE))
  }

  // ---------- order ----------

  lemma NarrowedMonotone(a: nat, b: nat)
    requires a <= b
    ensures Narrowed(a) <= Narrowed(b)
  {
    var u, w := Rounding.Ulp(a, FINEST), Rounding.Ulp(b, FINEST);
    UlpGrows(a, b, FINEST);
    if u == w {
      RoundToMonotone(a, b, TWO_29 * u);
    } else {
      var h: nat :| w == 2 * h && u <= h && TWO_53 * h <= b;
      RoundedAcross(a, b, u, h);
    }
  }

  /** Between a finer spacing and a coarser one lies a multiple of both. */
  lemma RoundedAcross(a: nat, b: nat, u: nat, h: nat)
    requires 0 < u <= h && a < TWO_53 * u && TWO_53 * h <= b
    ensures RoundTo(a, TWO_29 * u) <= RoundTo(b, TWO_29 * (2 * h))
  {
    RoundToMonotone(a, 0x100_0000 * (TWO_29 * u), TWO_29 * u);
    RoundToMultiple(0x100_0000, TWO_29 * u);
    RoundToMultiple(0x80_0000, TWO_29 * (2 * h));
    RoundToMonotone(0x80_0000 * (TWO_29 * (2 * h)), b, TWO_29 * (2 * h));
  }

  lemma TimesMonotone(a: real, b: real, s: real)
    requires 0.0 <= a <= b && s > 0.0
    ensures 0.0 <= a * s <= b * s
  {
    assert b * s - a * s == (b - a) * s;
  }

  lemma OverMonotone(a: int, b: int, s: real)
    requires a <= b && s > 0.0
    ensures a as real / s <= b as real / s
  {
    var x, y := a as real / s, b as real / s;
    assert x * s == a as real && y * s == b as real;
    assert (y - x) * s == y * s - x * s;
  }

  lemma FloorMonotone(x: real, y: real)
    requires 0.0 <= x <= y
    ensures 0 <= x.Floor <= y.Floor
  {
  }

  lemma UnitsMonotone(a: real, b: real, s: nat)
    requires 0.0 <= a <= b && s > 0
    ensures 0 <= ToUnits(s)(a) <= ToUnits(s)(b)
  {
    TimesMonotone(a, b, s as real);
    FloorMonotone(a * s as real, b * s as real);
  }

  lemma FromUnitsMonotone(a: int, b: int, s: nat)
    requires a <= b && s > 0
    ensures FromUnits(s)(a) <= FromUnits(s)(b)
  {
    OverMonotone(a, b, s as real);
  }

  /** Whole numbers go to units and back. */
  lemma WholeUnits(n: nat, s: nat)
    requires s > 0
    ensures ToUnits(s)(n as real) == n * s && FromUnits(s)(n * s) == n as real
  {
    WholeTimes(n, s);
  }

  lemma WholeTimes(n: nat, s: nat)
    requires s > 0
    ensures n as real * s as real == (n * s) as real && (n * s) as real / s as real == n as real
  {
    var x := n as real;
    assert x * s as real == (n * s) as real;
    assert x * s as real / s as real == x;
  }

  lemma PositiveMonotone(a: real, b: real, s: nat)
    requires 0.0 <= a <= b && s > 0
    ensures Positive(a, ToUnits(s), FromUnits(s)) <= Positive(b, ToUnits(s), FromUnits(s))
  {
    UnitsMonotone(a, b, s);
    NarrowedMonotone(ToUnits(s)(a), ToUnits(s)(b));
    FromUnitsMonotone(Narrowed(ToUnits(s)(a)), Narrowed(ToUnits(s)(b)), s);
  }

  lemma ZeroStays(s: nat)
    requires s > 0
    ensures Positive(0.0, ToUnits(s), FromUnits(s)) == 0.0
  {
    WholeUnits(0, s);
    RoundToMultiple(0, Spacing(0));
    assert 0 * Spacing(0) == 0 == 0 * s;
  }

  /** Narrowing never swaps two values, though it may merge them. */
  lemma ToFloatMonotone(a: real, b: real)
    requires a <= b
    ensures ToFloat(a) <= ToFloat(b)
  {
    ZeroStays(SCALE);
    if a >= 0.0 {
      PositiveMonotone(a, b, SCALE);
    } else if b < 0.0 {
      PositiveMonotone(-b, -a, SCALE);
    } else {
      PositiveMonotone(0.0, b, SCALE);
      PositiveMonotone(0.0, -a, SCALE);
    }
  }

  // ---------- rounded values stay ----------

  /** The largest spacing a value can have before the next power of two. */
  lemma {:induction false} UlpWithin(n: nat, u: nat)
    requires u > 0
    ensures var w := Rounding.Ulp(n, u); n < TWO_53 * w && (w == u || exists h: nat :: w == 2 * h && TWO_53 * h <= n)
  {
    if n >= TWO_53 * u {
      UlpHalf(n, u);
    }
  }

  /** Values between the same powers of two have the same spacing; the power itself has the next one. */
  lemma {:induction false} SameUlp(n: nat, m: nat, u: nat)
    requires u > 0
    requires var w := Rounding.Ulp(n, u); m <= TWO_53 * w && (w == u || forall h: nat | w == 2 * h :: TWO_53 * h <= m)
    ensures var w := Rounding.Ulp(n, u); Rounding.Ulp(m, u) == if m < TWO_53 * w then w else 2 * w
    decreases if n < TWO_53 * u then 0 else n - TWO_53 * u + 1
  {
    var w := Rounding.Ulp(n, u);
    if n < TWO_53 * u {
      if m == TWO_53 * w {
        assert Rounding.Ulp(m, 2 * u) == 2 * u;
      }
    } else {
      UlpHalf(n, u);
      var h: nat :| w == 2 * h && u <= h && TWO_53 * h <= n;
      assert TWO_53 * u <= TWO_53 * h <= m;
      SameUlp(n, m, 2 * u);
    }
  }

  lemma RoundToIsMultiple(n: nat, u: nat)
    requires u > 0
    ensures exists m: nat :: RoundTo(n, u) == m * u
  {
    var q := n / u;
    assert RoundTo(n, u) == q * u || RoundTo(n, u) == (q + 1) * u;
  }

  /** What has been rounded is not rounded again. */
  lemma NarrowedStays(n: nat)
    requires Narrowed(n) < INFINITE
    ensures Narrowed(n) >= 0 && Narrowed(Narrowed(n)) == Narrowed(n)
  {
    var w := Rounding.Ulp(n, FINEST);
    var r := RoundTo(n, Spacing(n));
    UlpWithin(n, FINEST);
    RoundToMonotone(n, 0x100_0000 * Spacing(n), Spacing(n));
    RoundToMultiple(0x100_0000, Spacing(n));
    RoundToIsMultiple(n, Spacing(n));
    var m: nat :| r == m * Spacing(n);
    forall h: nat | w == 2 * h && w != FINEST ensures TWO_53 * h <= r {
      RoundToMonotone(0x80_0000 * Spacing(n), n, Spacing(n));
      RoundToMultiple(0x80_0000, Spacing(n));
    }
    SameUlp(n, r, FINEST);
    if r < TWO_53 * w {
      RoundToMultiple(m, Spacing(n));
    } else {
      RoundToMultiple(0x80_0000, Spacing(r));
    }
  }

  /** What a FLOAT column can hold. */
  predicate IsFloat(r: real) {
    ToFloat(r) == r && IsFinite(r)
  }

  predicate IsFinite(r: real) {
    -(TWO_128 as real) < r < TWO_128 as real
  }

  lemma UnitsBack(n: nat, s: nat)
    requires s > 0
    ensures FromUnits(s)(n) >= 0.0 && ToUnits(s)(FromUnits(s)(n)) == n
  {
    var x := n as real / s as real;
    assert x * s as real == n as real;
  }

  lemma PositiveStays(r: real)
    requires r >= 0.0 && Positive(r, ToUnits(SCALE), FromUnits(SCALE)) < TWO_128 as real
    ensures var f := Positive(r, ToUnits(SCALE), FromUnits(SCALE));
            f >= 0.0 && Positive(f, ToUnits(SCALE), FromUnits(SCALE)) == f
  {
    UnitsMonotone(0.0, r, SCALE);
    var n := ToUnits(SCALE)(r);
    if Narrowed(n) >= INFINITE {
      WholeUnits(TWO_128, SCALE);
      FromUnitsMonotone(INFINITE, Narrowed(n), SCALE);
    }
    NarrowedStays(n);
    UnitsBack(Narrowed(n), SCALE);
  }

  lemma ToFloatStays(r: real)
    requires IsFinite(ToFloat(r))
    ensures IsFloat(ToFloat(r))
  {
    if r >= 0.0 {
      PositiveStays(r);
    } else {
      PositiveStays(-r);
      ZeroStays(SCALE);
    }
  }

  // ---------- a particular value ----------

  lemma {:induction false} UlpIs(n: nat, u: nat, k: nat)
    requires u > 0 && n < TWO_53 * (Pow2(k) * u)
    requires k == 0 || TWO_53 * (Pow2(k - 1) * u) <= n
    ensures Rounding.Ulp(n, u) == Pow2(k) * u
    decreases k
  {
    if k > 0 {
      PowersOfTwo(k, u);
      UlpIs(n, 2 * u, k - 1);
    }
  }

  lemma PowersOfTwo(k: nat, u: nat)
    requires k > 0
    ensures Pow2(k - 1) * (2 * u) == Pow2(k) * u && Pow2(k - 1) * u >= u
    ensures k > 1 ==> Pow2(k - 2) * (2 * u) == Pow2(k - 1) * u
  {
  }

  lemma {:induction false} PowersMultiply(a: nat, b: nat)
    ensures Pow2(a) * Pow2(b) == Pow2(a + b)
  {
    if a > 0 { PowersMultiply(a - 1, b); }
  }

  lemma TieToEven(p: nat)
    requires p > 0
    ensures RoundTo(16777217 * p, 2 * p) == 16777216 * p
  {
    RoundToBetween(16777217 * p, 8388608, 2 * p);
  }

  /** The spacing at 2^24 + 1, in a scale of which `f` is the finest part: twice the unit. */
  lemma SpacingThere(scale: nat, f: nat, k: nat)
    requires f > 0 && k > 0 && scale == TWO_29 * (Pow2(k - 1) * f)
    ensures Rounding.Ulp(16777217 * scale, f) == Pow2(k) * f && TWO_29 * (Pow2(k) * f) == 2 * scale
  {
    var h := Pow2(k - 1) * f;
    assert Pow2(k) * f == 2 * h;
    UlpIs(16777217 * scale, f, k);
  }

  lemma NarrowedThere(scale: nat, k: nat)
    requires k > 0 && scale == TWO_29 * (Pow2(k - 1) * FINEST) && 16777217 * scale <= INFINITE
    ensures Narrowed(16777217 * scale) == 16777216 * scale
  {
    SpacingThere(scale, FINEST, k);
    TieToEven(scale);
  }

  lemma Squared(k: nat, p: nat)
    requires Pow2(k) == p
    ensures Pow2(k + k) == p * p
  {
    PowersMultiply(k, k);
  }

  lemma ThatPower() returns (k: nat)
    ensures k > 0 && Pow2(k - 1) == TWO_128 * 0x20_0000
  {
    assert Pow2(4) == 16 && Pow2(5) == 32;
    var e: nat :| Pow2(e) == 16;
    var f: nat :| Pow2(f) == 32;
    Squared(e, 16);
    Squared(e + e, 0x100);
    var g := e + e + (e + e);
    Squared(g, 0x1_0000);
    Squared(g + g, 0x1_0000_0000);
    var h := g + g + (g + g);
    Squared(h, 0x1_0000_0000_0000_0000);
    PowersMultiply(g, f);
    PowersMultiply(h + h, g + f);
    k := h + h + (g + f) + 1;
  }

  /** 2^24 + 1 is the first integer that a float does not hold. */
  lemma TwoTo24PlusOne()
    ensures ToFloat(16777217.0) == 16777216.0
  {
    var k := ThatPower();
    NarrowedThere(SCALE, k);
    WholeUnits(16777217, SCALE);
    WholeUnits(16777216, SCALE);
  }

  lemma NextSpacingThere(scale: nat, f: nat, k: nat)
    requires f > 0 && k > 0 && scale == TWO_29 * (Pow2(k - 1) * f)
    ensures Rounding.Ulp(33554432 * scale, f) == Pow2(k + 1) * f && TWO_29 * (Pow2(k + 1) * f) == 4 * scale
  {
    var h := Pow2(k - 1) * f;
    assert Pow2(k) * f == 2 * h && Pow2(k + 1) * f == 4 * h;
    UlpIs(33554432 * scale, f, k + 1);
  }

  lemma PowerStays(p: nat)
    requires p > 0
    ensures RoundTo(33554432 * p, 4 * p) == 33554432 * p
  {
    RoundToBetween(33554432 * p, 8388608, 4 * p);
  }

  lemma NarrowedNext(scale: nat, k: nat)
    requires k > 0 && scale == TWO_29 * (Pow2(k - 1) * FINEST) && 33554432 * scale <= INFINITE
    ensures Narrowed(33554432 * scale) == 33554432 * scale
  {
    NextSpacingThere(scale, FINEST, k);
    PowerStays(scale);
  }

  lemma TwoTo25Stays()
    ensures ToFloat(33554432.0) == 33554432.0
  {
    var k := ThatPower();
    NarrowedNext(SCALE, k);
    WholeUnits(33554432, SCALE);
  }
}
