// Fixed-width machine integers as ranges of the mathematical integers, and the
// powers of two that the shifts of the original produce.

module Words {

  const TWO_TO_THE_8: int := 0x100
  const TWO_TO_THE_32: int := 0x1_0000_0000
  const TWO_TO_THE_64: int := 0x1_0000_0000_0000_0000

  type u8 = x: int | 0 <= x < TWO_TO_THE_8
  type u32 = x: int | 0 <= x < TWO_TO_THE_32
  type u64 = x: int | 0 <= x < TWO_TO_THE_64
  type Bytes = seq<u8>

  // Truncating casts and wrapping arithmetic, as a release build performs them.
  function Wrap32(x: int): u32 { x % TWO_TO_THE_32 }
  function Wrap64(x: int): u64 { x % TWO_TO_THE_64 }

  // 1 << k
  function Pow2(k: nat): nat {
    if k == 0 then 1 else 2 * Pow2(k - 1)
  }

  // 1 << (2 * k)
  function Pow4(k: nat): nat {
    if k == 0 then 1 else 4 * Pow4(k - 1)
  }

  lemma {:induction false} Pow2Positive(k: nat)
    ensures Pow2(k) >= 1
  {
    if k > 0 { Pow2Positive(k - 1); }
  }

  lemma {:induction false} Pow4Positive(k: nat)
    ensures Pow4(k) >= 1
  {
    if k > 0 { Pow4Positive(k - 1); }
  }

  lemma {:induction false} Pow2Add(a: nat, b: nat)
    ensures Pow2(a + b) == Pow2(a) * Pow2(b)
  {
    if a > 0 {
      Pow2Add(a - 1, b);
      assert Pow2(a + b) == 2 * Pow2(a - 1 + b);
      assert Pow2(a) * Pow2(b) == 2 * (Pow2(a - 1) * Pow2(b));
    }
  }

  lemma {:induction false} Pow2Monotone(a: nat, b: nat)
    requires a <= b
    ensures Pow2(a) <= Pow2(b)
  {
    if a < b {
      Pow2Monotone(a, b - 1);
      Pow2Positive(b - 1);
    }
  }

  lemma {:induction false} Pow4IsSquare(k: nat)
    ensures Pow4(k) == Pow2(k) * Pow2(k) == Pow2(2 * k) >= 1
  {
    Pow2Positive(k);
    if k > 0 {
      Pow4IsSquare(k - 1);
      assert Pow2(2 * k) == 2 * (2 * Pow2(2 * k - 2));
    }
  }

  lemma {:induction false} Pow4Monotone(a: nat, b: nat)
    requires a <= b
    ensures Pow4(a) <= Pow4(b)
  {
    if a < b {
      Pow4Monotone(a, b - 1);
      Pow4IsSquare(b - 1);
    }
  }

  lemma Pow2Values()
    ensures Pow2(0) == 1 && Pow2(3) == 8 && Pow2(7) == 0x80 && Pow2(8) == 0x100
    ensures Pow2(30) == 0x4000_0000 && Pow2(31) == 0x8000_0000 && Pow2(32) == TWO_TO_THE_32
    ensures Pow2(63) == 0x8000_0000_0000_0000 && Pow2(64) == TWO_TO_THE_64
  {
    assert Pow2(8) == 0x100;
    Pow2Add(8, 8);
    Pow2Add(16, 16);
    Pow2Add(32, 32);
    assert Pow2(32) == 2 * Pow2(31) == 4 * Pow2(30);
    assert Pow2(64) == 2 * Pow2(63);
  }

  lemma MulAtLeast(m: int, k: int)
    requires m > 0 && k >= 1
    ensures m * k >= m && m * -k <= -m
  {
    assert m * k == m + m * (k - 1);
    assert m * (k - 1) >= 0;
    assert m * -k == -(m * k);
  }

  // (a * m) / m and the remainder, for a product plus a small rest.
  lemma DivModOf(q: int, m: int, r: int)
    requires 0 <= r < m
    ensures (q * m + r) / m == q && (q * m + r) % m == r
  {
    var n := q * m + r;
    var k := n / m - q;
    assert n == m * (n / m) + n % m;
    assert m * k == r - n % m by { assert m * (n / m) == m * (q + k) == m * q + m * k; }
    if k >= 1 { MulAtLeast(m, k); }
    if k <= -1 { MulAtLeast(m, -k); }
  }

  // Reducing modulo a multiple first changes nothing.
  lemma ModOfMod(x: int, m: int, k: int)
    requires m > 0 && k > 0
    ensures m * k > 0 && (x % (m * k)) % m == x % m
  {
    assert m * k > 0;
    var q := x / (m * k);
    var y := x % (m * k);
    assert x == (m * k) * q + y;
    var a := y / m;
    var r := y % m;
    assert y == m * a + r;
    assert x == (k * q + a) * m + r by {
      assert (m * k) * q == (k * q) * m;
    }
    DivModOf(k * q + a, m, r);
  }
}
