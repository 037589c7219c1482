/** Powers of two and remainders. */
module Binary {
  const TWO63 := 0x8000_0000_0000_0000
  const TWO64 := 0x1_0000_0000_0000_0000

  function Pow2(n: nat): (p: nat)
    ensures p >= 1
  {
    if n == 0 then 1 else 2 * Pow2(n - 1)
  }

  lemma SmallMultiple(k: int, d: int, e: int)
    requires d > 0 && k * d == e && -d < e < d
    ensures k == 0
  {
    assert k >= 1 ==> (k - 1) * d >= 0;
    assert k <= -1 ==> (-k - 1) * d >= 0;
  }

  lemma DivUnique(n: int, d: int, q: int, r: int)
    requires d > 0 && n == q * d + r && 0 <= r < d
    ensures n % d == r
  {
    var p, s := n / d, n % d;
    assert p * d + s == q * d + r;
    SmallMultiple(p - q, d, r - s);
  }

  lemma HalfModulo(h: nat, m: nat)
    requires m > 0
    ensures h % (2 * m) == h % 2 + 2 * (h / 2 % m)
  {
    var q, r, b := h / 2 / m, h / 2 % m, h % 2;
    assert h == 2 * (q * m + r) + b;
    assert 2 * (q * m) == q * (2 * m);
    DivUnique(h, 2 * m, q, 2 * r + b);
  }

  /** A remainder taken twice, first by a multiple. */
  lemma ModuloTwice(x: int, a: int, b: int)
    requires a > 0 && b > 0
    ensures a * b > 0 && x % (a * b) % a == x % a
  {
    var n := a * b;
    assert n > 0;
    var q, r := x / n, x % n;
    var s, t := r / a, r % a;
    assert x == q * n + r && r == s * a + t;
    assert q * n == (q * b) * a;
    DivUnique(x, a, q * b + s, t);
  }

  lemma {:induction false} Pow2Sum(m: nat, n: nat)
    ensures Pow2(m + n) == Pow2(m) * Pow2(n)
    decreases m
  {
    if m > 0 { Pow2Sum(m - 1, n); }
  }

  lemma {:induction false} Pow2Grows(m: nat, n: nat)
    requires m <= n
    ensures Pow2(m) <= Pow2(n) && (m < n ==> 2 * Pow2(m) <= Pow2(n))
    decreases n - m
  {
    if m < n { Pow2Grows(m + 1, n); }
  }

  lemma Pow2Of64()
    ensures Pow2(63) == TWO63 && Pow2(64) == TWO64
  {
    assert Pow2(8) == 256;
    Pow2Sum(8, 8);
    Pow2Sum(16, 16);
    Pow2Sum(32, 32);
    assert Pow2(64) == 2 * Pow2(63);
  }
}
