/** Powers of two and aligned blocks: the arithmetic shared by the ring and the buddy allocator. */
module PowersOfTwo {

  /** `1 << n`. */
  function Pow2(n: nat): (r: nat)
    ensures r >= 1
  {
    if n == 0 then 1 else 2 * Pow2(n - 1)
  }

  lemma {:induction false} Pow2Split(a: nat, b: nat)
    ensures Pow2(a + b) == Pow2(a) * Pow2(b)
  {
    if a != 0 {
      Pow2Split(a - 1, b);
      calc {
        Pow2(a + b);
        2 * Pow2(a - 1 + b);
        2 * (Pow2(a - 1) * Pow2(b));
        (2 * Pow2(a - 1)) * Pow2(b);
      }
    }
  }

  lemma {:induction false} Pow2Monotone(a: nat, b: nat)
    requires a <= b
    ensures Pow2(a) <= Pow2(b)
    ensures a < b ==> 2 * Pow2(a) <= Pow2(b)
  {
    if a < b {
      Pow2Monotone(a, b - 1);
    }
  }

  /** Reducing modulo a multiple of `m` first changes nothing modulo `m`. */
  lemma ModOfMod(x: nat, m: nat, k: nat)
    requires m > 0 && k > 0
    ensures m * k > 0 && (x % (m * k)) % m == x % m
  {
    var q, r := x / (m * k), x % (m * k);
    assert x == (m * k) * q + r;
    assert x == m * (k * q) + r by { assert (m * k) * q == m * (k * q); }
    ModAddMultiple(r, k * q, m);
  }

  lemma ModAddMultiple(r: int, q: int, m: nat)
    requires m > 0
    ensures (m * q + r) % m == r % m
  {
    var q', r' := r / m, r % m;
    assert m * q + r == m * (q + q') + r';
    DivModUnique(m * q + r, m, q + q', r');
  }

  /** The multiples of `m` step by `m`. */
  lemma MultipleBounds(m: int, k: int)
    requires m > 0
    ensures k >= 1 ==> m * k >= m
    ensures k == 0 ==> m * k == 0
    ensures k <= -1 ==> m * k <= 0 - m
  {
    if k >= 1 {
      assert m * k == m + m * (k - 1);
    } else if k <= -1 {
      assert m * k == -m - m * (-k - 1);
    }
  }

  lemma DivModUnique(x: int, m: nat, q: int, r: int)
    requires m > 0 && 0 <= r < m && x == m * q + r
    ensures x / m == q && x % m == r
  {
    var q', r' := x / m, x % m;
    assert x == m * q' + r';
    assert m * (q - q') == m * q - m * q';
    MultipleBounds(m, q - q');
  }

  /** Two positions closer together than `m` never share a residue. */
  lemma ModDistinct(a: int, b: int, m: nat)
    requires m > 0 && a < b < a + m
    ensures a % m != b % m
  {
    var qa, qb := a / m, b / m;
    if a % m == b % m {
      assert a == m * qa + a % m && b == m * qb + b % m;
      assert m * (qb - qa) == m * qb - m * qa;
      MultipleBounds(m, qb - qa);
    }
  }
}
