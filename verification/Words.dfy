/** Bytes, machine-width constants and the few facts about alignment every module shares.
    Source integers are unbounded naturals here; each place where the program guards
    against wrap-around keeps that guard explicitly. */
module Words {
  type Byte = x: int | 0 <= x < 256

  datatype Option<T> = None | Some(value: T)

  const U32_MAX: nat := 0xFFFF_FFFF
  const U64_MAX: nat := 0xFFFF_FFFF_FFFF_FFFF
  /** GPU page: one page-table entry maps 4 KiB. */
  const GPU_PAGE: nat := 4096

  /** For n != 0 this is the source's test `!(n & (n - 1))`. */
  predicate PowerOfTwo(n: nat) {
    n == 1 || (n > 1 && n % 2 == 0 && PowerOfTwo(n / 2))
  }

  /** The source's `(x + a - 1) & ~(a - 1)` for a power of two `a`. */
  function RoundUp(x: nat, a: nat): nat
    requires a > 0
  {
    (x + a - 1) / a * a
  }

  lemma NonNegative(x: int, y: int)
    requires x >= 0 && y >= 0
    ensures x * y >= 0
  {
  }

  lemma MulStep(q: int, k: int, a: int)
    requires a > 0
    ensures q < k ==> q * a + a <= k * a
    ensures q * a < k * a ==> q < k
  {
    if q < k {
      NonNegative(k - q - 1, a);
      assert (k - q - 1) * a == k * a - q * a - a;
    } else {
      NonNegative(q - k, a);
      assert (q - k) * a == q * a - k * a;
    }
  }

  lemma MulMonotone(a: nat, b: nat, c: nat)
    requires a <= b
    ensures a * c <= b * c
  {
    NonNegative(b - a, c);
    assert (b - a) * c == b * c - a * c;
  }

  lemma SwapFactors(a: nat, b: nat, c: nat)
    ensures a * b * c == a * c * b
  {
  }

  lemma DivModUnique(x: nat, a: nat, q: nat, r: nat)
    requires a > 0 && r < a && x == q * a + r
    ensures x / a == q && x % a == r
  {
    MulStep(x / a, q, a);
    MulStep(q, x / a, a);
  }

  lemma AddDivisor(x: nat, a: nat)
    requires a > 0
    ensures (x + a) % a == x % a
  {
    var q := x / a;
    assert x + a == (q + 1) * a + x % a;
    DivModUnique(x + a, a, q + 1, x % a);
  }

  lemma {:induction false} ModOfMultiple(q: nat, a: nat)
    requires a > 0
    ensures q * a % a == 0
  {
    if q > 0 {
      ModOfMultiple(q - 1, a);
      assert q * a == (q - 1) * a + a;
      AddDivisor((q - 1) * a, a);
    }
  }

  /** RoundUp is the least multiple of `a` that is at least `x`. */
  lemma RoundUpIsLeastMultiple(x: nat, a: nat)
    requires a > 0
    ensures x <= RoundUp(x, a) < x + a
    ensures RoundUp(x, a) % a == 0
    ensures forall m: nat :: m % a == 0 && m >= x ==> m >= RoundUp(x, a)
  {
    var q := (x + a - 1) / a;
    assert q * a + (x + a - 1) % a == x + a - 1;
    ModOfMultiple(q, a);
    forall m: nat | m % a == 0 && m >= x
      ensures m >= RoundUp(x, a)
    {
      var k := m / a;
      assert m == k * a;
      if k < q {
        MulStep(k, q, a);
      } else {
        assert (k - q) * a >= 0;
      }
    }
  }

  /** Of two powers of two the smaller divides the larger. */
  lemma {:induction false} PowersDivide(a: nat, b: nat)
    requires PowerOfTwo(a) && PowerOfTwo(b) && a <= b
    ensures b % a == 0
  {
    if a > 1 {
      PowersDivide(a / 2, b / 2);
      var q := b / 2 / (a / 2);
      assert b == q * a;
      ModOfMultiple(q, a);
    }
  }

  lemma Regroup(a: nat, b: nat)
    ensures 2 * a * b == a * b * 2
  {
  }

  lemma {:induction false} Product(a: nat, b: nat)
    requires PowerOfTwo(a) && PowerOfTwo(b)
    ensures PowerOfTwo(a * b)
  {
    if a > 1 {
      Product(a / 2, b);
      Regroup(a / 2, b);
      DivModUnique(a * b, 2, a / 2 * b, 0);
    }
  }

  lemma LimitIsPower()
    ensures PowerOfTwo(U64_MAX + 1)
  {
    assert PowerOfTwo(16) by {
      assert PowerOfTwo(4);
    }
    Product(16, 16);
    Product(256, 256);
    Product(0x1_0000, 0x1_0000);
    Product(0x1_0000_0000, 0x1_0000_0000);
  }

  /** A multiple of a power of two that fits in 64 bits leaves room for one more unit. */
  lemma AlignedBelowLimit(m: nat, a: nat)
    requires PowerOfTwo(a) && a <= U64_MAX && m % a == 0 && m <= U64_MAX
    ensures m <= U64_MAX - (a - 1)
  {
    var limit := U64_MAX + 1;
    LimitIsPower();
    PowersDivide(a, limit);
    var k, l := m / a, limit / a;
    assert m == k * a && limit == l * a;
    MulStep(k, l, a);
  }
}
