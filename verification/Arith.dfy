/** Elementary facts on products, division and powers of two. */
module Arith {

  lemma MulStep(a: int, b: int, c: int)
    requires a < b && c >= 0
    ensures a * c + c <= b * c
  {
    assert (b - a - 1) * c >= 0;
    assert (b - a - 1) * c == b * c - a * c - c;
  }

  lemma DivUnique(x: int, d: int, q: int, r: int)
    requires d > 0 && x == q * d + r && 0 <= r < d
    ensures x / d == q && x % d == r
  {
    var q0, r0 := x / d, x % d;
    assert x == q0 * d + r0;
    if q0 < q {
      MulStep(q0, q, d);
    } else if q < q0 {
      MulStep(q, q0, d);
    }
  }

  function Pow2(k: nat): (r: nat)
    ensures r > 0
  {
    if k == 0 then 1 else 2 * Pow2(k - 1)
  }

  lemma {:induction false} Pow2Add(j: nat, k: nat)
    ensures Pow2(j + k) == Pow2(j) * Pow2(k)
  {
    if k > 0 {
      Pow2Add(j, k - 1);
      assert Pow2(j + k) == 2 * (Pow2(j) * Pow2(k - 1)) == Pow2(j) * (2 * Pow2(k - 1));
    }
  }

  /** Dividing by 2d is halving the quotient by d. */
  lemma HalfDiv(x: nat, d: nat)
    requires d > 0
    ensures x / (2 * d) == (x / d) / 2
    ensures x % (2 * d) == if (x / d) % 2 == 1 then d + x % d else x % d
  {
    var q, r := x / d, x % d;
    assert x == q * d + r;
    var h := q / 2;
    if q % 2 == 1 {
      assert q == 2 * h + 1;
      assert x == h * (2 * d) + (d + r);
      DivUnique(x, 2 * d, h, d + r);
    } else {
      assert q == 2 * h;
      assert x == h * (2 * d) + r;
      DivUnique(x, 2 * d, h, r);
    }
  }
}
