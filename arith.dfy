/** Small facts about powers of two and Euclidean division used by the word model. */
module Arith {

  function Pow2(n: nat): (p: nat)
    ensures p >= 1
  {
    if n == 0 then 1 else 2 * Pow2(n - 1)
  }

  lemma MulAtLeast(a: int, m: int)
    requires a >= 1 && m > 0
    ensures a * m >= m
  {
    assert a * m == (a - 1) * m + m;
  }

  lemma DivAtMost(x: nat, y: nat)
    requires y > 0
    ensures 0 <= x / y <= x
  {
    var q, r := x / y, x % y;
    assert x == q * y + r;
    if q > 0 {
      MulAtLeast(y, q);
      assert y * q == q * y;
    }
  }

  /** The quotient brackets the dividend, and it is exact exactly when the remainder is zero. */
  lemma DivBracket(x: nat, y: nat)
    requires y > 0
    ensures (x / y) * y <= x < (x / y) * y + y
    ensures (x / y) * y == x <==> x % y == 0
  {
    assert x == (x / y) * y + x % y;
  }

  /** Reducing modulo m drops a multiple of m, and changes nothing exactly below m. */
  lemma ModBelow(p: nat, m: nat)
    requires m > 0
    ensures p % m <= p && (p - p % m) % m == 0
    ensures p % m == p <==> p < m
  {
    var q := p / m;
    assert p == q * m + p % m;
    if q > 0 {
      MulAtLeast(q, m);
    }
    DivModUnique(q * m, m, q, 0);
  }

  /** Quotient and remainder are unique. */
  lemma DivModUnique(x: int, m: int, q: int, r: int)
    requires m > 0 && x == q * m + r && 0 <= r < m
    ensures x % m == r && x / m == q
  {
    var q0, r0 := x / m, x % m;
    assert x == q0 * m + r0;
    if q > q0 {
      assert (q - q0) * m == q * m - q0 * m;
      MulAtLeast(q - q0, m);
    } else if q < q0 {
      assert (q0 - q) * m == q0 * m - q * m;
      MulAtLeast(q0 - q, m);
    }
  }

  /** Reducing modulo a multiple of m first does not change the remainder modulo m. */
  lemma ModOfMod(x: int, m: int, k: int)
    requires m > 0 && k > 0
    ensures (x % (m * k)) % m == x % m
  {
    var q, r := x / (m * k), x % (m * k);
    assert x == q * (m * k) + r;
    var q2, r2 := r / m, r % m;
    assert r == q2 * m + r2;
    assert x == (q * k + q2) * m + r2;
    DivModUnique(x, m, q * k + q2, r2);
  }

  lemma Pow2Add(a: nat, b: nat)
    ensures Pow2(a + b) == Pow2(a) * Pow2(b)
    decreases a
  {
    if a > 0 {
      Pow2Add(a - 1, b);
      assert Pow2(a) * Pow2(b) == 2 * (Pow2(a - 1) * Pow2(b));
    }
  }

  lemma Pow2Monotone(a: nat, b: nat)
    requires a <= b
    ensures Pow2(a) <= Pow2(b)
    decreases b
  {
    if a < b {
      Pow2Monotone(a, b - 1);
    }
  }

  /** The powers of two that name the word widths. */
  lemma Pow2Widths()
    ensures Pow2(1) == 2 && Pow2(8) == 0x100 && Pow2(16) == 0x1_0000
    ensures Pow2(32) == 0x1_0000_0000 && Pow2(64) == 0x1_0000_0000_0000_0000
    ensures Pow2(128) == 0x1_0000_0000_0000_0000_0000_0000_0000_0000
  {
    assert Pow2(8) == 0x100;
    Pow2Add(8, 8);
    assert Pow2(16) == 0x1_0000;
    Pow2Add(16, 16);
    assert Pow2(32) == 0x1_0000_0000;
    Pow2Add(32, 32);
    assert Pow2(64) == 0x1_0000_0000_0000_0000;
    Pow2Add(64, 64);
  }

  /** Splitting off the lowest binary digit: x mod 2p = x mod 2 + 2 * ((x / 2) mod p). */
  lemma ModDoubleSplit(x: nat, p: nat)
    requires p > 0
    ensures x % (2 * p) == x % 2 + 2 * ((x / 2) % p)
  {
    var h := x / 2;
    assert x == 2 * h + x % 2;
    assert h == (h / p) * p + h % p;
    assert x == (h / p) * (2 * p) + (x % 2 + 2 * (h % p));
    DivModUnique(x, 2 * p, h / p, x % 2 + 2 * (h % p));
  }

  /** A low digit l in {0, 1} in front of 2z: (l + 2z) mod 2p = l + 2 (z mod p). */
  lemma ModDoubleJoin(l: nat, z: nat, p: nat)
    requires l < 2 && p > 0
    ensures (l + 2 * z) % (2 * p) == l + 2 * (z % p)
  {
    assert z == (z / p) * p + z % p;
    assert l + 2 * z == (z / p) * (2 * p) + (l + 2 * (z % p));
    DivModUnique(l + 2 * z, 2 * p, z / p, l + 2 * (z % p));
  }

  /** A multiple of 2^k is a multiple of every smaller power of two. */
  lemma MulPow2ModSmaller(x: nat, k: nat, w: nat)
    requires w <= k
    ensures (x * Pow2(k)) % Pow2(w) == 0
  {
    var p, q := Pow2(w), Pow2(k - w);
    Pow2Add(w, k - w);
    MultipleMod(x, p, q);
  }

  lemma MultipleMod(x: nat, p: nat, q: nat)
    requires p > 0
    ensures (x * (p * q)) % p == 0
  {
    var y := x * q;
    assert x * (p * q) == y * p;
    DivModUnique(y * p, p, y, 0);
  }

  /** A number below 2^w divided by a power at least as large is zero. */
  lemma DivByLargerPow2(x: nat, w: nat, k: nat)
    requires w <= k && x < Pow2(w)
    ensures x / Pow2(k) == 0
  {
    Pow2Monotone(w, k);
    DivModUnique(x, Pow2(k), 0, x);
  }

  /** Dividing by 2^i and then by 2 is dividing by 2^(i+1). */
  lemma DivPow2Step(x: nat, i: nat)
    ensures x / Pow2(i + 1) == (x / Pow2(i)) / 2
  {
    var p := Pow2(i);
    var q, r := x / p, x % p;
    var q2, r2 := q / 2, q % 2;
    assert x == q * p + r;
    assert q == q2 * 2 + r2;
    assert x == q2 * (2 * p) + (r2 * p + r);
    assert r2 * p + r < 2 * p by {
      assert r2 <= 1;
      assert r2 * p <= p;
    }
    DivModUnique(x, 2 * p, q2, r2 * p + r);
  }

  /** Adding modulo m can reduce either summand first. */
  lemma AddMod(a: int, b: int, m: int)
    requires m > 0
    ensures (a % m + b) % m == (a + b) % m
  {
    var q, r := a / m, a % m;
    assert a == q * m + r;
    var q2, r2 := (r + b) / m, (r + b) % m;
    assert r + b == q2 * m + r2;
    assert a + b == (q + q2) * m + r2;
    DivModUnique(a + b, m, q + q2, r2);
  }

  /** Doubling modulo m can reduce the operand first. */
  lemma DoubleMod(a: int, m: int)
    requires m > 0
    ensures ((a % m) * 2) % m == (a * 2) % m
  {
    var q, r := a / m, a % m;
    assert a == q * m + r;
    assert a * 2 == r * 2 + (2 * q) * m;
    AddMultiple(r * 2, 2 * q, m);
  }

  /** Adding a multiple of m does not change the remainder. */
  lemma AddMultiple(x: int, k: int, m: int)
    requires m > 0
    ensures (x + k * m) % m == x % m
  {
    var q, r := x / m, x % m;
    assert x == q * m + r;
    assert x + k * m == (q + k) * m + r;
    DivModUnique(x + k * m, m, q + k, r);
  }

  /** The remainder modulo 2p is the digit at p (0 or 1, times p) plus the remainder modulo p. */
  lemma ModDoubleTop(x: nat, p: nat)
    requires p > 0
    ensures x % (2 * p) == ((x / p) % 2) * p + x % p
  {
    var q, r := x / p, x % p;
    var q2, b := q / 2, q % 2;
    assert x == q * p + r;
    assert q == q2 * 2 + b;
    assert x == q2 * (2 * p) + (b * p + r);
    assert b * p + r < 2 * p by {
      assert b <= 1;
      assert b * p <= p;
    }
    DivModUnique(x, 2 * p, q2, b * p + r);
  }

  /** Wrapping both summands first gives the wrapped sum. */
  lemma WrapAdd(a: int, b: int, m: int)
    requires m > 0
    ensures (a % m + b % m) % m == (a + b) % m
  {
    AddMod(a, b % m, m);
    AddMod(b, a, m);
  }
}
