/**
 Division facts that the solver does not find for a divisor that is not a literal.
 */
module Arithmetic {

  lemma MulAtLeast(d: int, m: nat)
    requires d >= 1
    ensures d * m >= m
  {
    assert (d - 1) * m >= 0;
  }

  lemma EuclidUnique(q: int, q': int, m: nat, r: int, r': int)
    requires 0 <= r < m && 0 <= r' < m
    requires q * m + r == q' * m + r'
    ensures q == q' && r == r'
  {
    assert (q - q') * m == r' - r;
    assert (q' - q) * m == r - r';
    if q > q' {
      MulAtLeast(q - q', m);
    } else if q < q' {
      MulAtLeast(q' - q, m);
    }
  }

  lemma ModOf(x: int, k: int, m: nat, r: nat)
    requires r < m && x == k * m + r
    ensures x % m == r && x / m == k
  {
    EuclidUnique(x / m, k, m, x % m, r);
  }

  lemma ModAdd(x: int, m: nat)
    requires 0 < m
    ensures (x + m) % m == x % m && (x + m) / m == x / m + 1
  {
    assert (x / m + 1) * m == (x / m) * m + m;
    ModOf(x + m, x / m + 1, m, x % m);
  }

  /** `x` is a whole number of times `m`; divisibility without a modulus. */
  predicate Multiple(x: nat, m: nat)
    requires m > 0
  {
    x == 0 || (x >= m && Multiple(x - m, m))
  }

  lemma {:induction false} MultipleIsDivisible(x: nat, m: nat)
    requires m > 0
    ensures Multiple(x, m) <==> x % m == 0
  {
    if x >= m {
      MultipleIsDivisible(x - m, m);
      ModAdd(x - m, m);
    } else {
      ModOf(x, 0, m, x);
    }
  }

  /** Bytes to the next multiple of `align`, by the modulus. */
  function ModuloPadding(offset: nat, align: nat): (p: nat)
    requires align > 0
    ensures p < align
  {
    (align - offset % align) % align
  }

  lemma PaddingReachesMultiple(offset: nat, align: nat)
    requires align > 0
    ensures (offset + ModuloPadding(offset, align)) % align == 0
  {
    var r := offset % align;
    if r == 0 {
      ModOf(align, 1, align, 0);
    } else {
      ModOf(align - r, 0, align, align - r);
      assert offset + (align - r) == (offset / align) * align + align;
      assert (offset / align + 1) * align == (offset / align) * align + align;
      ModOf(offset + (align - r), offset / align + 1, align, 0);
    }
  }

  // ---------------------------------------------------------------- powers of two

  function Pow2(k: nat): (p: nat)
    ensures p > 0
  {
    if k == 0 then 1 else 2 * Pow2(k - 1)
  }

  lemma {:induction false} PowAdds(j: nat, k: nat)
    ensures Pow2(j + k) == Pow2(j) * Pow2(k)
  {
    if j > 0 {
      PowAdds(j - 1, k);
    }
  }

  lemma {:induction false} PowGrows(j: nat, k: nat)
    requires j <= k
    ensures Pow2(j) <= Pow2(k)
  {
    if j < k {
      PowGrows(j, k - 1);
    }
  }

  lemma {:induction false} SmallPowers()
    ensures Pow2(0) == 1 && Pow2(1) == 2 && Pow2(2) == 4 && Pow2(3) == 8 && Pow2(7) == 0x80 && Pow2(8) == 0x100
  {
    assert Pow2(1) == 2 && Pow2(2) == 4 && Pow2(3) == 8;
    PowAdds(3, 3);
    assert Pow2(7) == 2 * Pow2(6) && Pow2(8) == 2 * Pow2(7);
  }

  lemma {:induction false} WordPower()
    ensures Pow2(64) == 0x1_0000_0000_0000_0000
  {
    SmallPowers();
    PowAdds(8, 8);
    assert Pow2(16) == 0x1_0000;
    PowAdds(16, 16);
    assert Pow2(32) == 0x1_0000_0000;
    PowAdds(32, 32);
  }
}
