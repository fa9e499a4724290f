/** Arithmetic on C's `uint32_t`: values below 2^32, with wrap-around written out. */
module Words {
  import opened Basics

  type uint32 = x: int | 0 <= x < WORD

  function Add32(a: uint32, b: uint32): uint32 { if a + b < WORD then a + b else a + b - WORD }

  function Sub32(a: uint32, b: uint32): uint32 { if a >= b then a - b else a - b + WORD }

  lemma MulBounds(d: int, m: nat)
    ensures d >= 1 ==> d * m >= m
    ensures d <= 0 ==> d * m <= 0
    ensures d <= -1 ==> d * m <= 0 - m
  {
    if d >= 1 {
      assert d * m == (d - 1) * m + m;
    } else if d <= -1 {
      assert d * m == (d + 1) * m - m;
    }
  }

  lemma ModUnique(x: int, q: int, r: int, m: int)
    requires 0 <= r < m && x == q * m + r
    ensures x % m == r && x / m == q
  {
    var d := x / m - q;
    assert x == (x / m) * m + x % m;
    assert d * m == r - x % m;
    MulBounds(d, m);
  }

  lemma ModShift(x: int, k: int, m: int)
    requires m > 0
    ensures (x + k * m) % m == x % m
  {
    ModUnique(x + k * m, x / m + k, x % m, m);
  }

  /** Two numbers less than `m` apart fall in different residue classes. */
  lemma ModDistinct(a: int, b: int, m: int)
    requires m > 0 && a < b < a + m
    ensures a % m != b % m
  {
    if a % m == b % m {
      ModUnique(b, b / m, a % m, m);
      assert b - a == (b / m - a / m) * m;
      MulBounds(b / m - a / m, m);
    }
  }

  /** When `m` divides 2^32, wrapping changes no residue. */
  lemma WrapKeepsSlot(a: uint32, b: uint32, m: nat)
    requires m > 0 && WORD % m == 0
    ensures Add32(a, b) % m == (a + b) % m
  {
    ModShift(a + b - WORD, WORD / m, m);
  }
}
