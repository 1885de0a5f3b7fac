/** Little-endian integers as byte strings. */
module Bytes {
  import Arithmetic

  type Byte = b: int | 0 <= b < 256

  function Pow256(width: nat): (p: nat)
    ensures p >= 1
  {
    if width == 0 then 1 else 256 * Pow256(width - 1)
  }

  function LittleEndian(n: nat, width: nat): (bytes: seq<Byte>)
    ensures |bytes| == width
  {
    if width == 0 then [] else [n % 256] + LittleEndian(n / 256, width - 1)
  }

  function FromLittleEndian(bytes: seq<Byte>): nat {
    if bytes == [] then 0 else bytes[0] + 256 * FromLittleEndian(bytes[1..])
  }

  /** What was written reads back, up to the width written. */
  lemma {:induction false} LittleEndianRoundTrip(n: nat, width: nat)
    requires n < Pow256(width)
    ensures FromLittleEndian(LittleEndian(n, width)) == n
  {
    if width > 0 {
      assert n / 256 < Pow256(width - 1);
      LittleEndianRoundTrip(n / 256, width - 1);
      assert LittleEndian(n, width)[1..] == LittleEndian(n / 256, width - 1);
    }
  }

  /** The low byte stands first: byte k has weight 256^k. */
  lemma {:induction false} LowByteFirst(n: nat, width: nat, k: nat)
    requires k < width
    ensures LittleEndian(n, width)[k] == n / Pow256(k) % 256
  {
    if k > 0 {
      LowByteFirst(n / 256, width - 1, k - 1);
      DivideTwice(n, Pow256(k - 1));
    }
  }

  lemma DivideTwice(n: nat, p: nat)
    requires p > 0
    ensures n / 256 / p == n / (256 * p)
  {
    var q := n / (256 * p);
    var r := n % (256 * p);
    assert n == q * (256 * p) + r;
    assert n / 256 == q * p + r / 256 by {
      assert n == 256 * (q * p) + r;
    }
    assert r / 256 < p;
    Arithmetic.Quotient(n / 256, q, p);
  }

  /** A signed integer of this width. */
  predicate Fits(v: int, width: nat) {
    0 <= 2 * v + Pow256(width) && 2 * v < Pow256(width)
  }

  /** Two's complement of a signed integer, `width` bytes wide. */
  function Signed(v: int, width: nat): (n: nat)
    requires Fits(v, width)
    ensures n < Pow256(width)
  {
    if v < 0 then v + Pow256(width) else v
  }

  lemma SignedInjective(a: int, b: int, width: nat)
    requires Fits(a, width) && Fits(b, width)
    requires LittleEndian(Signed(a, width), width) == LittleEndian(Signed(b, width), width)
    ensures a == b
  {
    LittleEndianRoundTrip(Signed(a, width), width);
    LittleEndianRoundTrip(Signed(b, width), width);
  }

  lemma Widths()
    ensures Pow256(4) == 0x1_0000_0000 && Pow256(8) == 0x1_0000_0000_0000_0000
  {
    assert Pow256(2) == 0x1_0000;
    assert Pow256(4) == 256 * (256 * Pow256(2));
    assert Pow256(6) == 256 * (256 * Pow256(4));
    assert Pow256(8) == 256 * (256 * Pow256(6));
  }
}
