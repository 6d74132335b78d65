/** Division and remainder facts shared by the wheel's odometer, the bitmap levels and the varints. */
module Arith {

  lemma MulGrows(p: int, d: int)
    requires p > 0
    ensures d >= 1 ==> p * d >= p
    ensures d <= -1 ==> p * d <= -p
  {
    if d >= 1 {
      assert p * (d - 1) >= 0;
    } else if d <= -1 {
      assert p * (d + 1) <= 0;
    }
  }

  lemma DivMod(x: int, p: int)
    requires p > 0
    ensures x == p * (x / p) + x % p && 0 <= x % p < p
  {
  }

  lemma DivUnique(x: int, p: int, q: int, r: int)
    requires 0 <= r < p && x == p * q + r
    ensures x / p == q && x % p == r
  {
    DivMod(x, p);
    Unique(p, q, r, x / p, x % p);
  }

  lemma Unique(p: int, q: int, r: int, q': int, r': int)
    requires 0 <= r < p && 0 <= r' < p && p * q + r == p * q' + r'
    ensures q == q' && r == r'
  {
    assert p * (q - q') == r' - r;
    MulGrows(p, q - q');
  }

  lemma DivStep(x: nat, p: nat)
    requires p > 0
    ensures (x + 1) % p == 0 ==> (x + 1) / p == x / p + 1
    ensures (x + 1) % p != 0 ==> (x + 1) / p == x / p
  {
    var q, r := x / p, x % p;
    assert x == p * q + r;
    if r + 1 == p {
      assert x + 1 == p * (q + 1);
      DivUnique(x + 1, p, q + 1, 0);
    } else {
      DivUnique(x + 1, p, q, r + 1);
    }
  }

  lemma Distribute(p: int, a: int, b: int)
    ensures p * (a + b) == p * a + p * b
  {
  }

  lemma Regroup(p: int, m: int, q: int)
    ensures p * (m * q) == (m * p) * q
  {
  }

  lemma MulMono(p: nat, a: int, b: int)
    ensures a <= b ==> p * a <= p * b
  {
    if a <= b {
      Distribute(p, a, b - a);
      assert p * (b - a) >= 0;
    }
  }

  /** Dividing by p and then by m is dividing by the product. */
  lemma DivDiv(x: nat, p: nat, m: nat)
    requires p > 0 && m > 0
    ensures m * p > 0
    ensures x / (m * p) == x / p / m
    ensures x % (m * p) == p * (x / p % m) + x % p
    ensures x % (m * p) == 0 <==> x % p == 0 && x / p % m == 0
  {
    DivMod(x, p);
    DivMod(x / p, m);
    DivDivParts(x, p, m, x / p, x % p, x / p / m, x / p % m);
  }

  lemma DivDivParts(x: nat, p: nat, m: nat, q: nat, r: nat, q': nat, r': nat)
    requires r < p && r' < m && x == p * q + r && q == m * q' + r'
    ensures m * p > 0
    ensures x / (m * p) == q' && x % (m * p) == p * r' + r
    ensures p * r' + r == 0 <==> r == 0 && r' == 0
  {
    Distribute(p, m * q', r');
    Regroup(p, m, q');
    Distribute(p, r', 1);
    Distribute(p, r' + 1, m - r' - 1);
    assert p * (m - r' - 1) >= 0;
    assert p * r' >= 0;
    assert p * r' + r < m * p;
    if r' > 0 { MulGrows(p, r'); }
    DivUnique(x, m * p, q', p * r' + r);
  }

  function Pow2(n: nat): (p: nat)
    ensures p > 0
  {
    if n == 0 then 1 else 2 * Pow2(n - 1)
  }

  lemma {:induction false} Pow2Grows(m: nat, n: nat)
    requires m <= n
    ensures Pow2(m) <= Pow2(n)
    decreases n - m
  {
    if m == n {
    } else {
      Pow2Grows(m, n - 1);
    }
  }
}
