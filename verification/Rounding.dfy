/** static_cast<double> of an integer: round to nearest, ties to even, on a 53-bit significand. */
module Rounding {
  import opened Values
  import opened Arithmetic

  const TWO_53: int := 0x20_0000_0000_0000

  /** Distance of neighbouring doubles at `n`: the least power of two times `u` that leaves 53 bits. */
  function Ulp(n: nat, u: nat): (r: nat)
    requires u > 0
    ensures r >= u && n < TWO_53 * r
    decreases if n < TWO_53 * u then 0 else n - TWO_53 * u + 1
  {
    if n < TWO_53 * u then u else Ulp(n, 2 * u)
  }

  function RoundTo(n: nat, u: nat): int
    requires u > 0
  {
    var q, rest := n / u, n % u;
    if 2 * rest < u || (2 * rest == u && q % 2 == 0) then q * u else q * u + u
  }

  function RoundNat(n: nat): int {
    RoundTo(n, Ulp(n, 1))
  }

  function ToDouble(v: int): int {
    if v >= 0 then RoundNat(v) else -RoundNat(-v)
  }

  // ---------- Order ----------

  /** RoundTo between the two multiples around `n`. */
  lemma RoundToBetween(n: nat, q: nat, u: nat)
    requires u > 0 && q * u <= n < q * u + u
    ensures var rest := n - q * u;
            RoundTo(n, u) == if 2 * rest < u || (2 * rest == u && q % 2 == 0) then q * u else q * u + u
  {
    Quotient(n, q, u);
  }

  /** No multiple of `u` is nearer. */
  lemma RoundToNearest(n: nat, u: nat, m: int)
    requires u > 0
    ensures var r, other := RoundTo(n, u), m * u;
            (if r >= n then r - n else n - r) <= if other >= n then other - n else n - other
  {
    Division(n, u);
    var q := n / u;
    RoundToBetween(n, q, u);
    assert (q + 1) * u == q * u + u;
    if m <= q {
      MultipleBelow(m, q, u);
    } else {
      MultipleBelow(q + 1, m, u);
    }
  }

  /** Half way between two multiples, the even one. */
  lemma RoundToEven(k: nat, u: nat)
    requires u > 0
    ensures RoundTo((2 * k + 1) * u, 2 * u) == (if k % 2 == 0 then k else k + 1) * (2 * u)
  {
    assert k * (2 * u) <= (2 * k + 1) * u < k * (2 * u) + 2 * u;
    RoundToBetween((2 * k + 1) * u, k, 2 * u);
    assert (k + 1) * (2 * u) == k * (2 * u) + 2 * u;
  }

  lemma MultipleBelow(a: int, b: int, u: nat)
    requires a <= b
    ensures a * u <= b * u
  {
    assert b * u - a * u == (b - a) * u;
  }

  lemma RoundToMonotone(a: nat, b: nat, u: nat)
    requires u > 0 && a <= b
    ensures RoundTo(a, u) <= RoundTo(b, u)
  {
    Division(a, u);
    Division(b, u);
    var p, q := a / u, b / u;
    RoundToBetween(a, p, u);
    RoundToBetween(b, q, u);
    if p < q {
      TimesGrows(p, q, u);
    } else if q < p {
      TimesGrows(q, p, u);
    }
  }

  lemma RoundToMultiple(m: nat, u: nat)
    requires u > 0
    ensures RoundTo(m * u, u) == m * u
  {
    RoundToBetween(m * u, m, u);
  }

  lemma {:induction false} UlpGrows(a: nat, b: nat, u: nat)
    requires u > 0 && a <= b
    ensures Ulp(a, u) == Ulp(b, u)
            || exists h: nat :: Ulp(b, u) == 2 * h && Ulp(a, u) <= h && TWO_53 * h <= b
    decreases if a < TWO_53 * u then 0 else a - TWO_53 * u + 1
  {
    if a < TWO_53 * u {
      if b >= TWO_53 * u {
        UlpHalf(b, u);
      }
    } else {
      UlpGrows(a, b, 2 * u);
    }
  }

  lemma {:induction false} UlpHalf(b: nat, u: nat)
    requires u > 0 && b >= TWO_53 * u
    ensures exists h: nat :: Ulp(b, u) == 2 * h && u <= h && TWO_53 * h <= b
    decreases b - TWO_53 * u
  {
    if b < TWO_53 * (2 * u) {
      assert Ulp(b, u) == 2 * u;
    } else {
      UlpHalf(b, 2 * u);
    }
  }

  lemma RoundNatMonotone(a: nat, b: nat)
    requires a <= b
    ensures RoundNat(a) <= RoundNat(b)
  {
    var ua, ub := Ulp(a, 1), Ulp(b, 1);
    UlpGrows(a, b, 1);
    if ua == ub {
      RoundToMonotone(a, b, ua);
    } else {
      var h: nat :| ub == 2 * h && ua <= h && TWO_53 * h <= b;
      RoundToMonotone(a, TWO_53 * ua, ua);
      RoundToMultiple(TWO_53, ua);
      assert TWO_53 * h == (TWO_53 / 2) * ub;
      RoundToMonotone((TWO_53 / 2) * ub, b, ub);
      RoundToMultiple(TWO_53 / 2, ub);
    }
  }

  /** Rounding never swaps two integers. */
  lemma ToDoubleMonotone(a: int, b: int)
    requires a <= b
    ensures ToDouble(a) <= ToDouble(b)
  {
    if a >= 0 {
      RoundNatMonotone(a, b);
    } else if b < 0 {
      RoundNatMonotone(-b, -a);
    } else {
      RoundNatMonotone(0, b);
      RoundNatMonotone(0, -a);
      RoundToMultiple(0, 1);
    }
  }

  lemma ToDoubleExact(v: int)
    requires -TWO_53 <= v <= TWO_53
    ensures ToDouble(v) == v
  {
    var n := if v >= 0 then v else -v;
    if n < TWO_53 {
      assert RoundTo(n, 1) == n;
    } else {
      assert Ulp(n, 1) == 2;
    }
  }

  // ---------- Scalars as the statistics see them ----------

  /** Every binary64 value passes: above 2^53 they are integers that rounding leaves alone. */
  predicate IsDouble(d: real) {
    -TWO_53 as real <= d <= TWO_53 as real
    || (d.Floor as real == d && ToDouble(d.Floor) == d.Floor)
  }

  /** A number of a column or literal; every binary32 value is a binary64 value too. */
  predicate IsPlain(v: ExecValue) {
    v.I32? || v.I64? || (v.F32? && IsDouble(v.f)) || (v.F64? && IsDouble(v.d))
  }

  function AsDouble(v: ExecValue): real
    requires !v.Str?
  {
    match v
    case I32(i) => ToDouble(i) as real
    case I64(l) => ToDouble(l) as real
    case _ => AsNumber(v)
  }

  lemma RoundingStaysBelow(v: int, d: real)
    requires IsDouble(d)
    ensures v as real <= d ==> ToDouble(v) as real <= d
    ensures v as real >= d ==> ToDouble(v) as real >= d
  {
    var below := d.Floor;
    var above := if below as real == d then below else below + 1;
    if d.Floor as real != d || -TWO_53 as real <= d <= TWO_53 as real {
      ToDoubleExact(below);
      ToDoubleExact(above);
    }
    if v <= below {
      ToDoubleMonotone(v, below);
    }
    if v >= above {
      ToDoubleMonotone(above, v);
    }
  }

  function IntegerOf(v: ExecValue): int
    requires v.I32? || v.I64?
  {
    if v.I32? then v.i else v.l
  }

  /** Going through double keeps the order of any two plain values, though it may merge them. */
  lemma AsDoubleMonotone(a: ExecValue, b: ExecValue)
    requires IsPlain(a) && IsPlain(b) && AsNumber(a) <= AsNumber(b)
    ensures AsDouble(a) <= AsDouble(b)
  {
    if a.F32? || a.F64? {
      if b.I32? || b.I64? {
        RoundingStaysBelow(IntegerOf(b), AsNumber(a));
      }
    } else if b.F32? || b.F64? {
      RoundingStaysBelow(IntegerOf(a), AsNumber(b));
    } else {
      ToDoubleMonotone(IntegerOf(a), IntegerOf(b));
    }
  }

  /** 2^53 + 1 is the first integer that does not survive. */
  lemma TwoTo53PlusOneCollides()
    ensures ToDouble(TWO_53 + 1) == TWO_53 == ToDouble(TWO_53)
  {
    assert Ulp(TWO_53 + 1, 1) == 2;
    ToDoubleExact(TWO_53);
  }
}
