/** Remainders by a variable modulus. */
module Modular {

  lemma SmallMod(a: int, m: int)
    requires 0 <= a < m
    ensures a % m == a
  {
  }

  lemma MulBound(d: int, m: int)
    requires m > 0
    ensures d >= 1 ==> d * m >= m
    ensures d <= -1 ==> d * m <= -m
  {
  }

  lemma UniqueMod(x: int, q: int, r: int, m: int)
    requires m > 0 && x == q * m + r && 0 <= r < m
    ensures x % m == r
  {
    var d := x / m - q;
    assert d * m == r - x % m by {
      assert x == (x / m) * m + x % m;
      assert d * m == (x / m) * m - q * m;
    }
    MulBound(d, m);
  }

  lemma MultipleMod(q: int, r: int, m: int)
    requires m > 0
    ensures (q * m + r) % m == r % m
  {
    var p := r / m;
    assert q * m + r == (q + p) * m + r % m by {
      assert r == p * m + r % m;
    }
    UniqueMod(q * m + r, q + p, r % m, m);
  }

  lemma AddMod(a: int, b: int, m: int)
    requires m > 0
    ensures (a % m + b) % m == (a + b) % m
  {
    var q := a / m;
    assert a + b == q * m + (a % m + b) by { assert a == q * m + a % m; }
    MultipleMod(q, a % m + b, m);
  }

  /** Equal remainders mean a difference that m divides. */
  lemma SameMod(a: int, b: int, m: int)
    requires m > 0
    ensures a % m == b % m <==> (a - b) % m == 0
  {
    var d := a / m - b / m;
    assert a - b == d * m + (a % m - b % m) by {
      assert a == (a / m) * m + a % m && b == (b / m) * m + b % m;
      assert d * m == (a / m) * m - (b / m) * m;
    }
    MultipleMod(d, a % m - b % m, m);
    var r := a % m - b % m;
    if r > 0 { SmallMod(r, m); }
    if r < 0 { UniqueMod(r, -1, r + m, m); }
  }
}
