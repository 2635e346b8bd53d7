/** Shifts, powers of two and the rounded logarithm that every allocator of the kernel uses.
    Shifts are defined bit by bit, so that facts about them stay linear. */
module Arith {

  /** n << k. */
  function Shl(n: nat, k: nat): nat
    decreases k
  {
    if k == 0 then n else Shl(2 * n, k - 1)
  }

  /** n >> k. */
  function Shr(n: nat, k: nat): nat
    decreases k
  {
    if k == 0 then n else Shr(n / 2, k - 1)
  }

  /** 1 << n. */
  function Pow2(n: nat): (r: nat)
    ensures r >= 1
  {
    if n == 0 then 1 else 2 * Pow2(n - 1)
  }

  /** aligned_for: the k lowest bits of n are zero. */
  predicate Aligned(n: nat, k: nat) { Shl(Shr(n, k), k) == n }

  /** 31 - __builtin_clz(n): the position of the highest set bit. */
  function FloorLog2(n: nat): (r: nat)
    requires n > 0
    ensures Pow2(r) <= n < Pow2(r + 1)
  {
    if n == 1 then 0 else 1 + FloorLog2(n / 2)
  }

  /** log2_roundup: the logarithm of the smallest power of two that is at least n. */
  function Log2Roundup(n: nat): (r: nat)
    requires n > 0
    ensures n <= Pow2(r)
    ensures r > 0 ==> Pow2(r - 1) < n
  {
    var l2 := FloorLog2(n);
    if n == Pow2(l2) then l2 else l2 + 1
  }

  /** The numbers in [lo, hi). */
  ghost function Range(lo: nat, hi: nat): (s: set<nat>)
    ensures forall p: nat :: p in s <==> lo <= p < hi
  {
    if lo < hi then Range(lo, hi - 1) + {hi - 1} else {}
  }

  lemma {:induction false} RangeOne(p: nat)
    ensures Range(p, p + 1) == {p} && Range(p, p) == {}
  {
  }

  lemma {:induction false} RangeJoin(lo: nat, mid: nat, hi: nat)
    requires lo <= mid <= hi
    ensures Range(lo, hi) == Range(lo, mid) + Range(mid, hi)
    ensures Range(lo, mid) !! Range(mid, hi)
  {
  }

  lemma {:induction false} Pow2Monotone(a: nat, b: nat)
    requires a <= b
    ensures Pow2(a) <= Pow2(b)
    ensures a < b ==> Pow2(a) < Pow2(b)
  {
    if a < b {
      Pow2Monotone(a, b - 1);
    }
  }

  /** The rounded logarithm is the only exponent with n in (2^(r-1), 2^r]. */
  lemma {:induction false} Log2RoundupUnique(n: nat, r: nat)
    requires n > 0 && n <= Pow2(r)
    requires r > 0 ==> Pow2(r - 1) < n
    ensures Log2Roundup(n) == r
  {
    var l := Log2Roundup(n);
    if l < r {
      Pow2Monotone(l, r - 1);
    } else if r < l {
      Pow2Monotone(r, l - 1);
    }
  }

  /** A power of two is its own rounding. */
  lemma {:induction false} Log2OfPow2(r: nat)
    ensures Log2Roundup(Pow2(r)) == r
  {
    if r > 0 {
      Pow2Monotone(r - 1, r);
    }
    Log2RoundupUnique(Pow2(r), r);
  }

  // ---------- products and quotients ----------

  lemma {:induction false} MulMonotone(m: nat, i: nat, j: nat)
    requires i <= j
    ensures m * i <= m * j
    ensures i < j ==> m * i + m <= m * j
  {
    if i < j {
      MulMonotone(m, i, j - 1);
      assert m * j == m * (j - 1) + m;
    }
  }

  /** The quotient and remainder of a division, given. */
  lemma {:induction false} Quotient(n: nat, m: nat, q: nat, r: nat)
    requires r < m && n == m * q + r
    ensures n / m == q && n % m == r
  {
    var k, s := n / m, n % m;
    assert n == m * k + s;
    if k < q { MulMonotone(m, k, q); } else if q < k { MulMonotone(m, q, k); }
  }

  // ---------- laws of shifting ----------

  lemma {:induction false} ShlAdd(a: nat, b: nat, k: nat)
    ensures Shl(a + b, k) == Shl(a, k) + Shl(b, k)
    decreases k
  {
    if k > 0 {
      ShlAdd(2 * a, 2 * b, k - 1);
    }
  }

  lemma {:induction false} ShlOne(k: nat)
    ensures Shl(1, k) == Pow2(k) && Shl(0, k) == 0
  {
    if k > 0 {
      ShlOne(k - 1);
      ShlAdd(1, 1, k - 1);
    }
  }

  /** Moving up one index moves up one block size. */
  lemma {:induction false} ShlSucc(n: nat, k: nat)
    ensures Shl(n + 1, k) == Shl(n, k) + Pow2(k)
  {
    ShlAdd(n, 1, k);
    ShlOne(k);
  }

  lemma {:induction false} ShlMonotone(a: nat, b: nat, k: nat)
    requires a <= b
    ensures Shl(a, k) <= Shl(b, k)
    ensures a < b ==> Shl(a, k) < Shl(b, k)
  {
    ShlAdd(a, b - a, k);
    ShlPositive(b - a, k);
  }

  lemma {:induction false} ShlPositive(n: nat, k: nat)
    ensures n <= Shl(n, k)
    decreases k
  {
    if k > 0 {
      ShlPositive(2 * n, k - 1);
    }
  }

  lemma {:induction false} ShlIsProduct(n: nat, k: nat)
    ensures Shl(n, k) == n * Pow2(k)
    decreases k
  {
    if k > 0 {
      ShlIsProduct(2 * n, k - 1);
      assert (2 * n) * Pow2(k - 1) == n * (2 * Pow2(k - 1));
    }
  }

  /** Shifting right rounds down to a multiple. */
  lemma {:induction false} ShrBounds(n: nat, k: nat)
    ensures Shl(Shr(n, k), k) <= n < Shl(Shr(n, k) + 1, k)
  {
    if k > 0 {
      ShrBounds(n / 2, k - 1);
      var d := Shr(n, k);
      ShlAdd(d, d, k - 1);
      ShlAdd(d + 1, d + 1, k - 1);
    }
  }

  lemma {:induction false} ShrOfShl(n: nat, k: nat)
    ensures Shr(Shl(n, k), k) == n
  {
    var d := Shr(Shl(n, k), k);
    ShrBounds(Shl(n, k), k);
    if d < n {
      ShlMonotone(d + 1, n, k);
    } else if n < d {
      ShlMonotone(n, d, k);
    }
  }

  lemma {:induction false} ShrMonotone(a: nat, b: nat, k: nat)
    requires a <= b
    ensures Shr(a, k) <= Shr(b, k)
  {
    if k > 0 {
      ShrMonotone(a / 2, b / 2, k - 1);
    }
  }

  lemma {:induction false} ShlShl(n: nat, a: nat, b: nat)
    ensures Shl(n, a + b) == Shl(Shl(n, a), b)
    decreases a
  {
    if a > 0 {
      ShlShl(2 * n, a - 1, b);
    }
  }

  lemma {:induction false} ShrShr(n: nat, a: nat, b: nat)
    ensures Shr(n, a + b) == Shr(Shr(n, a), b)
    decreases a
  {
    if a > 0 {
      ShrShr(n / 2, a - 1, b);
    }
  }

  lemma {:induction false} ShrOfPow2(a: nat, b: nat)
    ensures Shr(Pow2(a), b) == if b <= a then Pow2(a - b) else 0
    decreases b
  {
    if b > 0 {
      if a > 0 { ShrOfPow2(a - 1, b - 1); } else { ShrOfZero(b - 1); }
    }
  }

  lemma {:induction false} ShrOfZero(k: nat)
    ensures Shr(0, k) == 0
  {
    if k > 0 { ShrOfZero(k - 1); }
  }

  /** A page is 2^12 bytes. */
  lemma {:induction false} Shift12(n: nat)
    ensures Shl(n, 12) == 4096 * n && Shr(n, 12) == n / 4096
  {
    Pow2Constants();
    ShlIsProduct(n, 12);
    ShrBounds(n, 12);
    ShlIsProduct(Shr(n, 12), 12);
    ShlIsProduct(Shr(n, 12) + 1, 12);
  }

  /** The named powers the kernel's constants are built from. */
  lemma {:induction false} Pow2Constants()
    ensures Pow2(3) == 8 && Pow2(9) == 512 && Pow2(11) == 2048 && Pow2(12) == 4096 && Pow2(13) == 8192
    ensures Pow2(16) == 65536 && Pow2(28) == 0x1000_0000
  {
    assert Pow2(4) == 16 && Pow2(6) == 64;
    assert Pow2(8) == 256 && Pow2(10) == 1024;
    assert Pow2(14) == 16384;
    assert Pow2(18) == 0x4_0000 && Pow2(20) == 0x10_0000;
    assert Pow2(22) == 0x40_0000 && Pow2(24) == 0x100_0000 && Pow2(26) == 0x400_0000;
  }
}
