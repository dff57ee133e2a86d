/** Elementary facts of integer arithmetic, one per lemma so that each proof that needs a product or
    a remainder of variables names the step it takes. */
module Arith {
  lemma Distribute(a: int, b: int, c: int)
    ensures a * (b + c) == a * b + a * c
    ensures a * (b - c) == a * b - a * c
  {}

  lemma Associate(a: int, b: int, c: int)
    ensures a * (b * c) == (a * b) * c
    ensures a * (b * c) == b * (a * c)
  {}

  lemma Commute(a: int, b: int)
    ensures a * b == b * a
  {}

  lemma Grow(n: int, d: int)
    requires n > 0
    ensures d >= 1 ==> n * d >= n
    ensures d <= -1 ==> n * d <= -n
    ensures d == 0 ==> n * d == 0
  {}

  lemma Monotone(a: int, b: int, c: int)
    requires a <= b && c >= 0
    ensures a * c <= b * c
  {}

  lemma DivMod(x: int, n: int)
    requires n > 0
    ensures x == n * (x / n) + x % n && 0 <= x % n < n
  {}

  /** Quotient and remainder are unique. */
  lemma ModUnique(x: int, q: int, r: int, n: int)
    requires n > 0 && 0 <= r < n && x == n * q + r
    ensures x % n == r && x / n == q
  {
    DivMod(x, n);
    Distribute(n, q, x / n);
    Grow(n, q - x / n);
  }

  lemma SmallMod(x: nat, n: nat)
    requires x < n
    ensures x % n == x
  {}

  lemma ModShift(x: int, q: int, n: int)
    requires n > 0
    ensures (x + n * q) % n == x % n
  {
    DivMod(x, n);
    Distribute(n, x / n, q);
    ModUnique(x + n * q, x / n + q, x % n, n);
  }

  function Pow2(n: nat): (r: nat)
    ensures r > 0
  {
    if n == 0 then 1 else 2 * Pow2(n - 1)
  }

  lemma {:induction false} Pow2Add(a: nat, b: nat)
    ensures Pow2(a + b) == Pow2(a) * Pow2(b)
  {
    if a > 0 {
      Pow2Add(a - 1, b);
      Associate(2, Pow2(a - 1), Pow2(b));
    }
  }

  lemma DivDiv(x: int, m: int, n: int)
    requires m > 0 && n > 0
    ensures x / m / n == x / (m * n)
  {
    var q := x / m / n;
    DivMod(x, m);
    DivMod(x / m, n);
    Associate(m, n, q);
    Distribute(m, n * q, x / m % n);
    var r := m * (x / m % n) + x % m;
    assert x == (m * n) * q + r;
    Monotone(x / m % n, n - 1, m);
    Distribute(m, n, 1);
    Commute(m, n - 1);
    Commute(m, x / m % n);
    Grow(m, n);
    ModUnique(x, q, r, m * n);
  }

  /** A number cut into a low part below m, one or two bytes, and a high part. */
  lemma FourPieces(h: int, m: int)
    requires h >= 0 && m > 0
    ensures h == h % m + m * (h / m % 256) + (m * 0x100) * (h / (m * 0x100) % 256)
      + (m * 0x1_0000) * (h / (m * 0x1_0000))
  {
    DivMod(h, m);
    DivMod(h / m, 256);
    DivMod(h / (m * 0x100), 256);
    DivDiv(h, m, 0x100);
    DivDiv(h, m * 0x100, 0x100);
    var a, b, c := h / m % 256, h / (m * 0x100) % 256, h / (m * 0x1_0000);
    assert h / m == 256 * (h / (m * 0x100)) + a;
    assert h / (m * 0x100) == 256 * c + b;
    assert h == m * (256 * (256 * c + b) + a) + h % m;
    Distribute(m, 256 * (256 * c + b), a);
    Associate(m, 256, 256 * c + b);
    Distribute(m * 0x100, 256 * c, b);
    Associate(m * 0x100, 256, c);
  }

  lemma ThreePieces(h: int, m: int)
    requires h >= 0 && m > 0
    ensures h == h % m + m * (h / m % 256) + (m * 0x100) * (h / (m * 0x100))
  {
    DivMod(h, m);
    DivMod(h / m, 256);
    DivDiv(h, m, 0x100);
    var a, c := h / m % 256, h / (m * 0x100);
    assert h / m == 256 * c + a;
    Distribute(m, 256 * c, a);
    Associate(m, 256, c);
  }
}
