/** The bytes of FLOAT and DOUBLE cells: a sign bit above the exponent and fraction of a binary number. */
module FloatBits {
  import opened Values
  import opened Arithmetic
  import opened BitWords
  import opened Bytes
  import opened Rounding
  import opened FloatRounding

  // ---------- magnitudes ----------

  /** `n` units of the finest spacing, where `hidden` is the weight of the leading bit of a significand. */
  predicate Representable(n: nat, hidden: nat)
    requires hidden > 0
  {
    n < 2 * hidden || (n % 2 == 0 && Representable(n / 2, hidden))
  }

  /** Exponent and fraction side by side: each halving that the fraction needs adds one to the exponent. */
  function Bits(n: nat, hidden: nat): (bits: nat)
    requires hidden > 0
    ensures if n < hidden then bits == n else bits >= hidden
  {
    if n < 2 * hidden then n else hidden + Bits(n / 2, hidden)
  }

  function Magnitude(bits: nat, hidden: nat): nat
    requires hidden > 0
  {
    if bits < 2 * hidden then bits else 2 * Magnitude(bits - hidden, hidden)
  }

  lemma {:induction false} BitsBack(n: nat, hidden: nat)
    requires hidden > 0 && Representable(n, hidden)
    ensures Magnitude(Bits(n, hidden), hidden) == n
  {
    if n >= 2 * hidden {
      BitsBack(n / 2, hidden);
    }
  }

  lemma {:induction false} BitsBelow(n: nat, hidden: nat, k: nat)
    requires hidden > 0 && n <= 2 * hidden * Pow2(k)
    ensures Bits(n, hidden) <= 2 * hidden + k * hidden
    decreases k
  {
    if n >= 2 * hidden {
      if k == 0 {
        assert n / 2 == hidden;
      } else {
        HalfBelow(n, hidden, k);
        BitsBelow(n / 2, hidden, k - 1);
        assert k * hidden == (k - 1) * hidden + hidden;
      }
    }
  }

  lemma HalfBelow(n: nat, hidden: nat, k: nat)
    requires k > 0 && n <= 2 * hidden * Pow2(k)
    ensures n / 2 <= 2 * hidden * Pow2(k - 1)
  {
    var p := Pow2(k - 1);
    assert 2 * hidden * (2 * p) == 2 * (2 * hidden * p);
  }

  lemma {:induction false} Shifted(m: nat, hidden: nat, k: nat)
    requires hidden > 0 && m <= 2 * hidden
    ensures Representable(m * Pow2(k), hidden)
  {
    if k > 0 {
      Shifted(m, hidden, k - 1);
      var p := m * Pow2(k - 1);
      assert m * Pow2(k) == 2 * p;
    }
  }

  // ---------- cells ----------

  function Size(r: real): (size: real)
    ensures size >= 0.0
  {
    if r < 0.0 then -r else r
  }

  /** Whole units in |r|, each 1 / scale. */
  function Units(r: real, scale: nat): nat
    requires scale > 0
  {
    UnitsMonotone(0.0, Size(r), scale);
    ToUnits(scale)(Size(r))
  }

  /** The layout of a binary format: unit, weight of the leading bit, pattern of infinity, sign bit. */
  datatype Format = Format(scale: nat, hidden: nat, infinity: nat, sign: nat) {
    predicate Valid() {
      scale > 0 && hidden > 0 && infinity < sign
    }

    /** `r` is a number of the format, or its infinity, which stands one place above the largest. */
    predicate Holds(r: real)
      requires Valid()
    {
      && FromUnits(scale)(Units(r, scale)) == Size(r)
      && Representable(Units(r, scale), hidden) && Bits(Units(r, scale), hidden) <= infinity
    }

    function Pattern(r: real): (bits: nat)
      requires Valid() && Holds(r)
      ensures bits <= infinity + sign
    {
      Bits(Units(r, scale), hidden) + if r < 0.0 then sign else 0
    }
  }

  /** The number with this pattern. */
  function Number(f: Format, bits: nat): real
    requires f.Valid()
  {
    if bits >= f.sign then -FromUnits(f.scale)(Magnitude(bits - f.sign, f.hidden))
    else FromUnits(f.scale)(Magnitude(bits, f.hidden))
  }

  lemma PatternBack(f: Format, r: real)
    requires f.Valid() && f.Holds(r)
    ensures Number(f, f.Pattern(r)) == r
  {
    BitsBack(Units(r, f.scale), f.hidden);
  }

  lemma PatternInjective(f: Format, a: real, b: real)
    requires f.Valid() && f.Holds(a) && f.Holds(b) && f.Pattern(a) == f.Pattern(b)
    ensures a == b
  {
    PatternBack(f, a);
    PatternBack(f, b);
  }

  /** `n` units are a number of the format if the significand fits. */
  lemma UnitsHeld(f: Format, r: real, n: nat)
    requires f.Valid() && Size(r) == FromUnits(f.scale)(n) && Representable(n, f.hidden) && Bits(n, f.hidden) <= f.infinity
    ensures f.Holds(r)
  {
    UnitsBack(n, f.scale);
  }

  // ---------- binary32 and binary64 ----------

  const BINARY32: Format := Format(TWO_128 * 0x20_0000, 0x80_0000, 0x7F80_0000, 0x8000_0000)

  const BINARY64: Format := Format(SCALE, 0x10_0000_0000_0000, 0x7FF0_0000_0000_0000, 0x8000_0000_0000_0000)

  // ---------- what narrowing gives is a binary32 number ----------

  lemma {:induction false} UlpIsPower(n: nat, u: nat) returns (k: nat)
    requires u > 0
    ensures Rounding.Ulp(n, u) == Pow2(k) * u
    decreases if n < TWO_53 * u then 0 else n - TWO_53 * u + 1
  {
    if n < TWO_53 * u {
      k := 0;
    } else {
      var j := UlpIsPower(n, 2 * u);
      k := j + 1;
      assert Pow2(k) * u == Pow2(j) * (2 * u);
    }
  }

  lemma CancelTimes(a: nat, b: nat, u: nat)
    requires u > 0 && a * u <= b * u
    ensures a <= b
  {
    if a > b { TimesGrows(b, a, u); }
  }

  /** The rounded value is at most 2^24 steps of its spacing. */
  lemma RoundedSteps(n: nat, u: nat) returns (m: nat)
    requires u > 0 && n < 0x100_0000 * u
    ensures RoundTo(n, u) == m * u && m <= 0x100_0000
  {
    RoundToIsMultiple(n, u);
    m :| RoundTo(n, u) == m * u;
    RoundToMonotone(n, 0x100_0000 * u, u);
    RoundToMultiple(0x100_0000, u);
    CancelTimes(m, 0x100_0000, u);
  }

  /** 2^253: the largest exponent of binary32 over the smallest. */
  lemma PowerOfRange() returns (k: nat)
    ensures k == 253 && Pow2(k) == TWO_128 * 0x2000_0000_0000_0000_0000_0000_0000_0000
  {
    assert Pow2(4) == 16 && Pow2(5) == 32;
    var e: nat :| e == 4 && Pow2(e) == 16;
    var f: nat :| f == 5 && Pow2(f) == 32;
    Squared(e, 16);
    Squared(e + e, 0x100);
    var g := e + e + (e + e);
    Squared(g, 0x1_0000);
    Squared(g + g, 0x1_0000_0000);
    var h := g + g + (g + g);
    Squared(h, 0x1_0000_0000_0000_0000);
    PowersMultiply(h, g + g);
    PowersMultiply(h + (g + g), g);
    PowersMultiply(h + (g + g) + g, e + e);
    PowersMultiply(h + (g + g) + g + (e + e), f);
    PowersMultiply(h + h, h + (g + g) + g + (e + e) + f);
    k := h + h + (h + (g + g) + g + (e + e) + f);
  }

  /** Units of two scales, one finer by `c`. */
  lemma SameValue(q: nat, scale: nat, c: nat)
    requires scale > 0 && c > 0
    ensures scale * c > 0 && FromUnits(scale * c)(q * c) == FromUnits(scale)(q)
  {
    var x := q as real / scale as real;
    assert x * scale as real == q as real;
    ScaledReal(x, q, scale, c);
  }

  lemma ScaledReal(x: real, q: nat, scale: nat, c: nat)
    requires scale > 0 && c > 0 && x * scale as real == q as real
    ensures scale * c > 0 && (q * c) as real / (scale * c) as real == x
  {
    assert (q * c) as real == q as real * c as real;
    assert (scale * c) as real == scale as real * c as real;
    assert x * (scale as real * c as real) == q as real * c as real;
    DivideReal(x, (scale * c) as real, (q * c) as real);
  }

  lemma DivideReal(x: real, y: real, z: real)
    requires y > 0.0 && x * y == z
    ensures z / y == x
  {
  }

  /** Narrowing gives a significand of 24 bits, in the units of binary32. */
  lemma NarrowedUnits(n: nat) returns (q: nat)
    ensures Narrowed(n) == q * (TWO_29 * FINEST)
    ensures Representable(q, 0x80_0000) && Bits(q, 0x80_0000) <= 0x7F80_0000
  {
    var range := PowerOfRange();
    var k := UlpIsPower(n, FINEST);
    var m := RoundedSteps(n, Spacing(n));
    SpacingUnits(m, k);
    if RoundTo(n, Spacing(n)) > INFINITE {
      Shifted(0x100_0000, 0x80_0000, range);
      q := 0x100_0000 * Pow2(range);
    } else {
      Shifted(m, 0x80_0000, k);
      q := m * Pow2(k);
      CancelTimes(q, 0x100_0000 * Pow2(range), TWO_29 * FINEST);
    }
    BitsBelow(q, 0x80_0000, range);
  }

  lemma SpacingUnits(m: nat, k: nat)
    ensures m * (TWO_29 * (Pow2(k) * FINEST)) == m * Pow2(k) * (TWO_29 * FINEST)
  {
    Regrouped(m, Pow2(k), FINEST);
  }

  lemma Regrouped(m: nat, p: nat, u: nat)
    ensures m * (TWO_29 * (p * u)) == m * p * (TWO_29 * u)
  {
    assert m * p * (TWO_29 * u) == TWO_29 * (m * p * u);
    assert m * (TWO_29 * (p * u)) == TWO_29 * (m * (p * u));
    assert m * (p * u) == m * p * u;
  }

  /** What narrowing makes of any number is a binary32 number or an infinity. */
  lemma NarrowedHeld(r: real)
    ensures BINARY32.Holds(ToFloat(r))
  {
    UnitsMonotone(0.0, Size(r), SCALE);
    var q := NarrowedUnits(ToUnits(SCALE)(Size(r)));
    SameValue(q, BINARY32.scale, TWO_29 * FINEST);
    UnitsBack(q, BINARY32.scale);
    UnitsHeld(BINARY32, ToFloat(r), q);
  }

  // ---------- integers as doubles ----------

  /** 2^1074 units make one. */
  lemma ScaleIsPower() returns (k: nat)
    ensures k == 1074 && Pow2(k) == SCALE
  {
    assert Pow2(4) == 16 && Pow2(2) == 4;
    var e: nat :| e == 4 && Pow2(e) == 16;
    var f: nat :| f == 2 && Pow2(f) == 4;
    Squared(e, 16);
    Squared(e + e, 0x100);
    var g := e + e + (e + e);
    Squared(g, 0x1_0000);
    Squared(g + g, 0x1_0000_0000);
    var h := g + g + (g + g);
    Squared(h, 0x1_0000_0000_0000_0000);
    PowersMultiply(g, f);
    PowersMultiply(g + g, g + f);
    EighthPower(h + h, TWO_128);
    PowersMultiply(8 * (h + h), g + g + (g + f));
    k := 8 * (h + h) + (g + g + (g + f));
  }

  lemma EighthPower(k: nat, p: nat)
    requires Pow2(k) == p
    ensures Pow2(8 * k) == p * p * p * p * p * p * p * p
  {
    Squared(k, p);
    Squared(2 * k, p * p);
    Squared(4 * k, p * p * (p * p));
    var q := p * p;
    assert q * q * (q * q) == q * q * q * q;
    assert q * q * q * q == p * p * p * p * p * p * p * p;
  }

  lemma WholeHeld(i: int)
    requires -TWO_53 <= i <= TWO_53
    ensures BINARY64.Holds(i as real)
  {
    var n: nat := if i < 0 then -i else i;
    var k := ScaleIsPower();
    WholeUnits(n, SCALE);
    Shifted(n, BINARY64.hidden, k);
    BitsBelow(n * SCALE, BINARY64.hidden, k);
    UnitsHeld(BINARY64, i as real, n * SCALE);
  }
}
