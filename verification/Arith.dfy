/** The few facts about products and quotients the other modules need. */
module Arith {

  lemma MulMonotone(a: nat, b: nat, c: nat)
    requires a <= b
    ensures a * c <= b * c
    ensures a < b ==> a * c + c <= b * c
  {
    assert b * c == a * c + (b - a) * c;
    if a < b {
      assert (b - a) * c == c + (b - a - 1) * c;
    }
  }

  /** Quotient and remainder are determined by `a == q * n + r`. */
  lemma DivModUnique(a: nat, n: nat, q: nat, r: nat)
    requires r < n && a == q * n + r
    ensures a / n == q && a % n == r
  {
    var d := a / n;
    assert a == d * n + a % n;
    if d < q {
      MulMonotone(d, q, n);
    } else if q < d {
      MulMonotone(q, d, n);
    }
  }

  lemma NextMod(a: nat, n: nat)
    requires n > 0
    ensures (a + 1) % n == if a % n + 1 == n then 0 else a % n + 1
  {
    var q, r := a / n, a % n;
    if r + 1 == n {
      assert a + 1 == (q + 1) * n + 0;
      DivModUnique(a + 1, n, q + 1, 0);
    } else {
      DivModUnique(a + 1, n, q, r + 1);
    }
  }

  // The two moduli of the sampling pipeline: ring indices and the sample counter.

  lemma Mod256(a: int, q: int, r: int)
    requires 0 <= r < 0x100 && a == 0x100 * q + r
    ensures a % 0x100 == r
  {
  }

  lemma Mod32(a: int, q: int, r: int)
    requires 0 <= r < 0x1_0000_0000 && a == 0x1_0000_0000 * q + r
    ensures a % 0x1_0000_0000 == r
  {
  }
}
