/**
  Bitwise AND on unsigned integers, defined bit by bit from the least
  significant bit, and what masking with `2^k - 1` computes.
 */
module Bits {

  function Pow2(k: nat): (p: nat)
    ensures p >= 1
  {
    if k == 0 then 1 else 2 * Pow2(k - 1)
  }

  /** `a & b` on unsigned integers. */
  function BitAnd(a: nat, b: nat): (r: nat)
    ensures r <= a && r <= b
    decreases a
  {
    if a == 0 || b == 0 then 0
    else 2 * BitAnd(a / 2, b / 2) + (if a % 2 == 1 && b % 2 == 1 then 1 else 0)
  }

  /** Multiplying by a positive factor preserves a strict order. */
  lemma MulStrict(d: nat, a: nat, b: nat)
    requires d >= 1 && a < b
    ensures d * a + d <= d * b
  {
    var e := b - a - 1;
    assert b == a + 1 + e;
    assert d * b == d * a + d + d * e;
  }

  /** The remainder is determined by any quotient-remainder decomposition. */
  lemma ModUnique(x: nat, d: nat, q: nat, r: nat)
    requires d >= 1 && x == d * q + r && r < d
    ensures x % d == r
  {
    var q', r' := x / d, x % d;
    assert x == d * q' + r';
    if q' < q {
      MulStrict(d, q', q);
    } else if q' > q {
      MulStrict(d, q, q');
    }
  }

  /** Division by `2 * p` seen as division by 2 followed by division by `p`. */
  lemma ModDouble(x: nat, p: nat)
    requires p >= 1
    ensures x % (2 * p) == 2 * ((x / 2) % p) + x % 2
  {
    var q := x / 2;
    var s := q / p;
    var t := q % p;
    assert q == p * s + t;
    assert x == 2 * q + x % 2;
    assert 2 * q == (2 * p) * s + 2 * t;
    ModUnique(x, 2 * p, s, 2 * t + x % 2);
  }

  /** Masking with `2^k - 1` keeps the remainder modulo `2^k`. */
  lemma {:induction false} BitAndLowMask(x: nat, k: nat)
    ensures BitAnd(x, Pow2(k) - 1) == x % Pow2(k)
  {
    if k == 0 || x == 0 {
    } else {
      var p := Pow2(k - 1);
      assert Pow2(k) - 1 == 2 * (p - 1) + 1;
      assert (Pow2(k) - 1) / 2 == p - 1;
      BitAndLowMask(x / 2, k - 1);
      ModDouble(x, p);
    }
  }
}
