/** Integer facts shared by the allocator models: C's remainder, rounding to a
    multiple, and the bit masks that stand in for both on powers of two. */
module Arith {

  // ---------- C's remainder ----------

  /** The remainder of C's `/`, which truncates toward zero. */
  function CRem(v: int, m: int): int
    requires m > 0
  {
    if v >= 0 then v % m else -((-v) % m)
  }

  /** `r = v % m; if (r < 0) r += m`, the idiom of the block layout code. */
  function FixedRem(v: int, m: int): (r: int)
    requires m > 0
  {
    var r := CRem(v, m);
    if r < 0 then r + m else r
  }

  lemma MulSign(m: int, k: int)
    requires m > 0
    ensures k >= 1 ==> m * k >= m
    ensures k <= 0 ==> m * k <= 0
    ensures k <= -1 ==> m * k <= -m
  {}

  lemma ModUnique(v: int, m: int, q: int, r: int)
    requires m > 0 && 0 <= r < m && v == m * q + r
    ensures v % m == r && v / m == q
  {
    var q', r' := v / m, v % m;
    assert v == m * q' + r';
    assert m * (q - q') == r' - r;
    MulSign(m, q - q');
  }

  /** The fixed-up C remainder is the mathematical one, for either sign. */
  lemma FixedRemIsMod(v: int, m: int)
    requires m > 0
    ensures FixedRem(v, m) == v % m
  {
    if v < 0 {
      var q, r := (-v) / m, (-v) % m;
      assert -v == m * q + r;
      if r == 0 {
        assert v == m * (-q) + 0;
        ModUnique(v, m, -q, 0);
      } else {
        assert v == m * (-q - 1) + (m - r);
        ModUnique(v, m, -q - 1, m - r);
      }
    }
  }

  // ---------- multiples ----------

  lemma ModOfMultiple(m: int, q: int)
    requires m > 0
    ensures (m * q) % m == 0
  {
    ModUnique(m * q, m, q, 0);
  }

  lemma MultipleQuotient(v: int, m: int)
    requires m > 0 && v % m == 0
    ensures v == m * (v / m)
  {}

  lemma ModSum(a: int, b: int, m: int)
    requires m > 0 && a % m == 0 && b % m == 0
    ensures (a + b) % m == 0 && (a - b) % m == 0
  {
    MultipleQuotient(a, m);
    MultipleQuotient(b, m);
    assert a + b == m * (a / m + b / m);
    assert a - b == m * (a / m - b / m);
    ModOfMultiple(m, a / m + b / m);
    ModOfMultiple(m, a / m - b / m);
  }

  lemma SameRemainder(u: int, v: int, m: int)
    requires m > 0
    ensures u % m == v % m <==> (u - v) % m == 0
  {
    var q, p, t := u / m, v / m, v % m;
    assert v == m * p + t;
    if u % m == t {
      assert m * (q - p) == m * q - m * p == u - v;
      ModOfMultiple(m, q - p);
    }
    if (u - v) % m == 0 {
      var k := (u - v) / m;
      MultipleQuotient(u - v, m);
      assert m * (k + p) == m * k + m * p == u - t;
      ModUnique(u, m, k + p, t);
    }
  }

  /** Two multiples of `m` that differ are at least `m` apart. */
  lemma MultiplesApart(a: int, b: int, m: int)
    requires m > 0 && a % m == 0 && b % m == 0 && a < b
    ensures b - a >= m
  {
    MultipleQuotient(a, m);
    MultipleQuotient(b, m);
    assert b - a == m * (b / m - a / m);
    MulSign(m, b / m - a / m);
  }

  lemma ModTransitive(v: int, m: int, k: int)
    requires m > 0 && k > 0 && m % k == 0 && v % m == 0
    ensures v % k == 0
  {
    MultipleQuotient(v, m);
    MultipleQuotient(m, k);
    assert v == k * ((m / k) * (v / m));
    ModOfMultiple(k, (m / k) * (v / m));
  }

  /** Reducing by a multiple of `m` first does not change the remainder by `m`. */
  lemma ModOfMod(v: int, w: int, m: int)
    requires w > 0 && m > 0 && w % m == 0
    ensures (v % w) % m == v % m
  {
    var x, c, d := v % w, w / m, v / w;
    MultipleQuotient(w, m);
    assert w * d == m * (c * d);
    assert v == m * (c * d) + (m * (x / m) + x % m);
    assert v == m * (c * d + x / m) + x % m;
    ModUnique(v, m, c * d + x / m, x % m);
  }

  lemma SubtractRem(v: int, m: int)
    requires m > 0
    ensures (v - v % m) % m == 0 && (v + (-v) % m) % m == 0
  {
    assert v - v % m == m * (v / m);
    ModOfMultiple(m, v / m);
    assert -v == m * ((-v) / m) + (-v) % m;
    assert v + (-v) % m == m * (-((-v) / m));
    ModOfMultiple(m, -((-v) / m));
  }

  /** The least multiple of `m` that is at least `v`. */
  function RoundUp(v: int, m: int): (r: int)
    requires m > 0
  {
    v + (-v) % m
  }

  lemma RoundUpIsLeast(v: int, m: int)
    requires m > 0
    ensures v <= RoundUp(v, m) < v + m && RoundUp(v, m) % m == 0
    ensures forall w :: w >= v && w % m == 0 ==> w >= RoundUp(v, m)
  {
    SubtractRem(v, m);
    forall w | w >= v && w % m == 0
      ensures w >= RoundUp(v, m)
    {
      if w < RoundUp(v, m) {
        MultiplesApart(w, RoundUp(v, m), m);
      }
    }
  }

  /** Adding m - 1 and dropping the remainder rounds up. */
  lemma RoundUpByMask(v: int, m: int)
    requires m > 0
    ensures v + (m - 1) - (v + (m - 1)) % m == RoundUp(v, m)
  {
    var q, r := (v + (m - 1)) / m, (v + (m - 1)) % m;
    assert v + (m - 1) == m * q + r;
    assert m * (-q) == -(m * q);
    ModUnique(-v, m, -q, m - 1 - r);
  }

  lemma RoundUpMonotone(v: int, w: int, m: int)
    requires m > 0 && v <= w
    ensures RoundUp(v, m) <= RoundUp(w, m)
  {
    RoundUpIsLeast(v, m);
    RoundUpIsLeast(w, m);
  }

  // ---------- powers of two and masks ----------

  function Pow2(k: nat): (p: int)
    ensures p >= 1
  {
    if k == 0 then 1 else 2 * Pow2(k - 1)
  }

  lemma {:induction false} Pow2Divides(j: nat, k: nat)
    requires j <= k
    ensures Pow2(k) % Pow2(j) == 0
  {
    if j < k {
      Pow2Divides(j, k - 1);
      ModSum(Pow2(k - 1), Pow2(k - 1), Pow2(j));
    } else {
      ModOfMultiple(Pow2(j), 1);
    }
  }

  lemma TwoTo32()
    ensures Pow2(32) == 0x1_0000_0000
  {
    assert Pow2(8) == 256;
    assert Pow2(16) == 65536;
    assert Pow2(24) == 16777216;
  }

  /** `v & (2^k - 1)` on a two's-complement word, bit by bit. */
  function AndLow(v: int, k: nat): (r: int)
    decreases k
  {
    if k == 0 then 0 else 2 * AndLow(v / 2, k - 1) + v % 2
  }

  /** `v & ~(2^k - 1)` on a two's-complement word, bit by bit. */
  function AndHigh(v: int, k: nat): (r: int)
    decreases k
  {
    if k == 0 then v else 2 * AndHigh(v / 2, k - 1)
  }

  /** Masking splits a word into its remainder by 2^k and the multiple below it,
      for negative words too. */
  lemma {:induction false} MaskIsMod(v: int, k: nat)
    ensures AndLow(v, k) == v % Pow2(k)
    ensures AndHigh(v, k) == v - v % Pow2(k)
    decreases k
  {
    if k > 0 {
      MaskIsMod(v / 2, k - 1);
      ModOfDouble(v / 2, v % 2, v, Pow2(k - 1));
    }
  }

  /** The remainder of 2 * h + b, for a bit b, by 2 * p. */
  lemma ModOfDouble(h: int, b: int, v: int, p: int)
    requires p >= 1 && 0 <= b < 2 && v == 2 * h + b
    ensures v % (2 * p) == 2 * (h % p) + b
  {
    var q, r := h / p, h % p;
    assert h == p * q + r;
    assert (2 * p) * q == 2 * (p * q);
    ModUnique(v, 2 * p, q, 2 * r + b);
  }
}
