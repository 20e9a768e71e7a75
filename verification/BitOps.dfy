/** Bit-level arithmetic on natural numbers.

    The kernel computes buddies, parents, alignments and descriptor fields with C's bitwise
    operators.  They are defined here bit by bit, and the lemmas turn each use the kernel makes
    of them into ordinary addition, subtraction and divisibility.
 */
module BitOps {

  /** 1 << k */
  function Pow2(k: nat): (r: nat)
    ensures r >= 1
  {
    if k == 0 then 1 else 2 * Pow2(k - 1)
  }

  /** x & y */
  function And(x: nat, y: nat): (r: nat)
    ensures r <= x && r <= y
  {
    if x == 0 || y == 0 then 0
    else (if x % 2 == 1 && y % 2 == 1 then 1 else 0) + 2 * And(x / 2, y / 2)
  }

  /** x | y */
  function Or(x: nat, y: nat): nat
    decreases x + y
  {
    if x == 0 && y == 0 then 0
    else (if x % 2 == 1 || y % 2 == 1 then 1 else 0) + 2 * Or(x / 2, y / 2)
  }

  /** x ^ y */
  function Xor(x: nat, y: nat): nat
    decreases x + y
  {
    if x == 0 && y == 0 then 0
    else (if x % 2 != y % 2 then 1 else 0) + 2 * Xor(x / 2, y / 2)
  }

  /** x & ~m */
  function Clear(x: nat, m: nat): nat {
    if x == 0 then 0
    else (if x % 2 == 1 && m % 2 == 0 then 1 else 0) + 2 * Clear(x / 2, m / 2)
  }

  /** n << k, as the sum of n copies of 2^k. */
  function Shl(n: nat, k: nat): nat {
    if n == 0 then 0 else Pow2(k) + Shl(n - 1, k)
  }

  /** x >> k */
  function Shr(x: nat, k: nat): nat {
    if k == 0 then x else Shr(x / 2, k - 1)
  }

  /** The k lowest bits of x are zero. */
  predicate Aligned(x: nat, k: nat) {
    k == 0 || (x % 2 == 0 && Aligned(x / 2, k - 1))
  }

  lemma {:induction false} Pow2Monotone(j: nat, k: nat)
    requires j <= k
    ensures Pow2(j) <= Pow2(k)
    ensures j < k ==> 2 * Pow2(j) <= Pow2(k)
  {
    if j < k {
      Pow2Monotone(j, k - 1);
    }
  }

  lemma {:induction false} Pow2Add(j: nat, k: nat)
    ensures Pow2(j + k) == Pow2(j) * Pow2(k)
  {
    if j > 0 {
      Pow2Add(j - 1, k);
      assert Pow2(j + k) == 2 * Pow2(j - 1 + k) == 2 * (Pow2(j - 1) * Pow2(k));
    }
  }

  lemma {:induction false} ShlIsProduct(n: nat, k: nat)
    ensures Shl(n, k) == Pow2(k) * n
  {
    if n > 0 {
      ShlIsProduct(n - 1, k);
    }
  }

  /** Clearing bits subtracts the bits that were there. */
  lemma {:induction false} ClearIsSubtraction(x: nat, m: nat)
    ensures Clear(x, m) == x - And(x, m)
  {
    if x != 0 {
      ClearIsSubtraction(x / 2, m / 2);
    }
  }

  lemma {:induction false} AlignedZero(k: nat)
    ensures Aligned(0, k)
  {
    if k > 0 {
      AlignedZero(k - 1);
    }
  }

  lemma {:induction false} AlignedWeaken(x: nat, j: nat, k: nat)
    requires j <= k && Aligned(x, k)
    ensures Aligned(x, j)
  {
    if j > 0 {
      AlignedWeaken(x / 2, j - 1, k - 1);
    }
  }

  lemma {:induction false} AlignedPlusPow2(x: nat, k: nat)
    requires Aligned(x, k)
    ensures Aligned(x + Pow2(k), k)
    ensures x >= Pow2(k) ==> Aligned(x - Pow2(k), k)
  {
    if k > 0 {
      AlignedPlusPow2(x / 2, k - 1);
      assert (x + Pow2(k)) / 2 == x / 2 + Pow2(k - 1);
      if x >= Pow2(k) {
        assert (x - Pow2(k)) / 2 == x / 2 - Pow2(k - 1);
      }
    }
  }

  lemma ModUnique(a: nat, q: nat, r: nat, m: nat)
    requires r < m && a == m * q + r
    ensures a % m == r && a / m == q
  {
    var q', r' := a / m, a % m;
    assert a == m * q' + r';
    assert m * (q' - q) == m * q' - m * q;
    if q < q' {
      MulAtLeast(m, q' - q);
      assert false;
    } else if q' < q {
      MulAtLeast(m, q - q');
      assert false;
    }
  }

  lemma MulAtLeast(m: nat, d: nat)
    requires d >= 1
    ensures m * d >= m
  {
    assert m * d == m * (d - 1) + m;
  }

  /** The remainder by 2m of x, from the remainder by m of x / 2. */
  lemma HalvedMod(x: nat, m: nat)
    requires m > 0
    ensures x % (2 * m) == 2 * ((x / 2) % m) + x % 2
  {
    var q, r := (x / 2) / m, (x / 2) % m;
    assert x / 2 == m * q + r;
    assert (2 * m) * q == 2 * (m * q);
    ModUnique(x, q, 2 * r + x % 2, 2 * m);
  }

  /** Alignment is divisibility by the power of two. */
  lemma {:induction false} AlignedIsDivisible(x: nat, k: nat)
    ensures Aligned(x, k) <==> x % Pow2(k) == 0
  {
    if k > 0 {
      AlignedIsDivisible(x / 2, k - 1);
      HalvedMod(x, Pow2(k - 1));
    }
  }

  /** `x & ((1 << k) - 1)` is zero exactly when x is aligned to 2^k. */
  lemma {:induction false} MaskTestsAlignment(x: nat, k: nat)
    ensures And(x, Pow2(k) - 1) == 0 <==> Aligned(x, k)
  {
    if k > 0 {
      MaskTestsAlignment(x / 2, k - 1);
      assert (Pow2(k) - 1) % 2 == 1 && (Pow2(k) - 1) / 2 == Pow2(k - 1) - 1;
      if x == 0 {
        AlignedZero(k);
      }
    }
  }

  /** An aligned x is the lower or the upper half of a run of twice its size. */
  lemma {:induction false} AlignedHalves(x: nat, k: nat)
    requires Aligned(x, k)
    ensures Aligned(x, k + 1) ==> !Aligned(x + Pow2(k), k + 1)
    ensures !Aligned(x, k + 1) ==> x >= Pow2(k) && Aligned(x - Pow2(k), k + 1)
  {
    if k > 0 {
      AlignedHalves(x / 2, k - 1);
      assert (x + Pow2(k)) / 2 == x / 2 + Pow2(k - 1);
      if !Aligned(x, k + 1) {
        var y := x - Pow2(k);
        assert y % 2 == 0 && y / 2 == x / 2 - Pow2(k - 1);
      }
    } else {
      assert Aligned(x / 2, 0) && Aligned((x - x % 2) / 2, 0);
    }
  }

  /** For an aligned x, `x ^ (1 << k)` moves up or down by 2^k. */
  lemma {:induction false} XorBit(x: nat, k: nat)
    requires Aligned(x, k)
    ensures Xor(x, Pow2(k)) == if Aligned(x, k + 1) then x + Pow2(k) else x - Pow2(k)
  {
    if k == 0 {
      XorZero(x / 2);
    } else {
      XorBit(x / 2, k - 1);
      assert Pow2(k) % 2 == 0 && Pow2(k) / 2 == Pow2(k - 1);
    }
  }

  lemma {:induction false} XorZero(x: nat)
    ensures Xor(x, 0) == x
  {
    if x > 0 {
      XorZero(x / 2);
    }
  }

  /** For an aligned x, `x & ~(1 << k)` is x rounded down to a multiple of 2^(k+1). */
  lemma {:induction false} ClearBit(x: nat, k: nat)
    requires Aligned(x, k)
    ensures Clear(x, Pow2(k)) == if Aligned(x, k + 1) then x else x - Pow2(k)
  {
    if k == 0 {
      ClearZero(x / 2);
    } else {
      ClearBit(x / 2, k - 1);
      assert Pow2(k) % 2 == 0 && Pow2(k) / 2 == Pow2(k - 1);
    }
  }

  lemma {:induction false} ClearZero(x: nat)
    ensures Clear(x, 0) == x
  {
    if x > 0 {
      ClearZero(x / 2);
    }
  }

  /** Masking with 2^k - 1 is remainder, clearing it is rounding down. */
  lemma {:induction false} MaskIsRemainder(x: nat, k: nat)
    ensures And(x, Pow2(k) - 1) == x % Pow2(k)
    ensures Clear(x, Pow2(k) - 1) == x - x % Pow2(k)
  {
    ClearIsSubtraction(x, Pow2(k) - 1);
    if k > 0 {
      MaskIsRemainder(x / 2, k - 1);
      assert (Pow2(k) - 1) % 2 == 1 && (Pow2(k) - 1) / 2 == Pow2(k - 1) - 1;
      HalvedMod(x, Pow2(k - 1));
    }
  }

  lemma {:induction false} OrZero(x: nat)
    ensures Or(x, 0) == x
  {
    if x > 0 {
      OrZero(x / 2);
    }
  }

  /** Or-ing low bits into a number leaves its aligned part alone. */
  lemma {:induction false} OrLow(a: nat, x: nat, y: nat, k: nat)
    requires Aligned(a, k) && x < Pow2(k) && y < Pow2(k)
    ensures Or(a + x, y) == a + Or(x, y)
  {
    if k == 0 {
      OrZero(a);
    } else {
      OrLow(a / 2, x / 2, y / 2, k - 1);
      assert (a + x) / 2 == a / 2 + x / 2;
    }
  }

  /** Dividing by 2m is halving and dividing by m. */
  lemma HalvedDiv(x: nat, m: nat)
    requires m > 0
    ensures x / (2 * m) == (x / 2) / m
  {
    var q, r := (x / 2) / m, (x / 2) % m;
    assert x / 2 == m * q + r;
    assert (2 * m) * q == 2 * (m * q);
    ModUnique(x, q, 2 * r + x % 2, 2 * m);
  }

  /** Shifting right is division by the power of two. */
  lemma {:induction false} ShrIsDivision(x: nat, k: nat)
    ensures Shr(x, k) == x / Pow2(k)
  {
    if k > 0 {
      ShrIsDivision(x / 2, k - 1);
      HalvedDiv(x, Pow2(k - 1));
    }
  }
}
