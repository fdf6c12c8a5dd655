/**
 Powers of two, bitwise or, and the bit-smearing `nextPowerOfTwo` of the buffered
 reader (pkg/net/internal/bufreader/reader.go), including what Go's 64-bit `int` does
 to the final addition.
 */
module PowerOfTwo {

  const TWO_62: int := 0x4000_0000_0000_0000
  const TWO_63: int := 0x8000_0000_0000_0000

  function Pow2(k: nat): (p: nat)
    ensures p >= 1
  {
    if k == 0 then 1 else 2 * Pow2(k - 1)
  }

  ghost predicate IsPow2(p: int) {
    exists k: nat :: p == Pow2(k)
  }

  /** `p` is the least power of two that is at least `n`. */
  ghost predicate IsLeastPow2(n: int, p: int) {
    IsPow2(p) && n <= p && forall q :: IsPow2(q) && n <= q ==> p <= q
  }

  /** Bitwise or of two non-negative integers. */
  function BitOr(a: nat, b: nat): nat {
    if a == 0 && b == 0 then 0
    else 2 * BitOr(a / 2, b / 2) + if a % 2 == 1 || b % 2 == 1 then 1 else 0
  }

  /** `x >> m` of a non-negative integer. */
  function Shr(x: nat, m: nat): nat
    decreases m
  {
    if m == 0 then x else Shr(x / 2, m - 1)
  }

  /** The value Go's `int` holds after a sum of two non-negative values overflows. */
  function Wrap64(x: int): int {
    if x >= TWO_63 then x - 2 * TWO_63 else x
  }

  lemma {:induction false} Pow2Adds(a: nat, b: nat)
    ensures Pow2(a + b) == Pow2(a) * Pow2(b)
  {
    if a > 0 {
      Pow2Adds(a - 1, b);
    }
  }

  lemma {:induction false} Pow2Grows(a: nat, b: nat)
    requires a < b
    ensures 2 * Pow2(a) <= Pow2(b)
    decreases b
  {
    if a < b - 1 {
      Pow2Grows(a, b - 1);
    }
  }

  /** A power of two larger than another is at least twice as large. */
  lemma Pow2Doubles(p: int, q: int)
    requires IsPow2(p) && IsPow2(q) && p < q
    ensures 2 * p <= q
  {
    var a: nat :| p == Pow2(a);
    var b: nat :| q == Pow2(b);
    if b < a {
      Pow2Grows(b, a);
    } else if a < b {
      Pow2Grows(a, b);
    }
  }

  lemma {:induction false} BitOrBounds(a: nat, b: nat)
    ensures BitOr(a, b) >= a && BitOr(a, b) >= b
  {
    if a != 0 || b != 0 {
      BitOrBounds(a / 2, b / 2);
    }
  }

  lemma {:induction false} BitOrZero(a: nat)
    ensures BitOr(a, 0) == a
  {
    if a != 0 {
      BitOrZero(a / 2);
    }
  }

  /** The low `p` bits of `x` are zero. */
  ghost predicate Aligned(x: nat, p: nat)
    decreases p
  {
    p == 0 || (x % 2 == 0 && Aligned(x / 2, p - 1))
  }

  lemma {:induction false} AlignedTwice(x: nat, p: nat)
    requires Aligned(x, p)
    ensures Aligned(2 * x, p + 1)
  {
    assert (2 * x) / 2 == x;
  }

  lemma {:induction false} DifferenceAligned(i: nat, j: nat, p: nat)
    requires p <= j <= i
    ensures Pow2(i) >= Pow2(j) && Aligned(Pow2(i) - Pow2(j), p)
    decreases p
  {
    if j < i {
      Pow2Grows(j, i);
    }
    if p > 0 {
      DifferenceAligned(i - 1, j - 1, p - 1);
      AlignedTwice(Pow2(i - 1) - Pow2(j - 1), p - 1);
    }
  }

  /** Or-ing a number below `2^p` into `hi + lo`, with `hi` aligned, leaves `hi` alone. */
  lemma {:induction false} BitOrKeepsHighPart(hi: nat, lo: nat, b: nat, p: nat)
    requires Aligned(hi, p) && lo < Pow2(p) && b < Pow2(p)
    ensures BitOr(lo, b) < Pow2(p)
    ensures BitOr(hi + lo, b) == hi + BitOr(lo, b)
    decreases p
  {
    if p == 0 {
      BitOrZero(hi);
    } else {
      assert (hi + lo) / 2 == hi / 2 + lo / 2 && (hi + lo) % 2 == lo % 2;
      BitOrKeepsHighPart(hi / 2, lo / 2, b / 2, p - 1);
    }
  }

  lemma {:induction false} ShrBelow(x: nat, m: nat, a: nat)
    requires x < Pow2(a)
    ensures if m <= a then Shr(x, m) < Pow2(a - m) else Shr(x, m) == 0
    decreases m
  {
    if m > 0 {
      if a > 0 {
        ShrBelow(x / 2, m - 1, a - 1);
      } else {
        ShrBelow(0, m - 1, 0);
      }
    }
  }

  lemma {:induction false} ShrAtLeast(x: nat, m: nat, a: nat, b: nat)
    requires m <= a && Pow2(a) - Pow2(b) <= x
    ensures Pow2(a - m) - Pow2(if m <= b then b - m else 0) <= Shr(x, m)
    decreases m
  {
    if m > 0 {
      ShrAtLeast(x / 2, m - 1, a - 1, if b > 0 then b - 1 else 0);
    }
  }

  /** The top `m` bits (or all of them) of the `k`-bit number `x` are ones. */
  ghost predicate TopOnes(x: nat, k: nat, m: nat) {
    Pow2(k) - Pow2(if m <= k then k - m else 0) <= x < Pow2(k)
  }

  /** One `n |= n >> m` doubles the run of leading ones. */
  lemma {:induction false} SmearStep(x: nat, k: nat, m: nat)
    requires m >= 1 && TopOnes(x, k, m)
    ensures TopOnes(BitOr(x, Shr(x, m)), k, 2 * m)
  {
    ShrBelow(x, m, k);
    if m >= k {
      BitOrZero(x);
    } else {
      ShrAtLeast(x, m, k, k - m);
      SmearParts(x, k, k - m, Shr(x, m));
    }
  }

  lemma {:induction false} SmearParts(x: nat, k: nat, p: nat, b: nat)
    requires p <= k && Pow2(k) - Pow2(p) <= x < Pow2(k) && b < Pow2(p)
    ensures Pow2(k) - Pow2(p) + b <= BitOr(x, b) < Pow2(k)
  {
    DifferenceAligned(k, p, p);
    var hi := Pow2(k) - Pow2(p);
    BitOrKeepsHighPart(hi, x - hi, b, p);
    BitOrBounds(x - hi, b);
  }

  /** Every positive number has a bit length. */
  lemma {:induction false} BitLength(x: nat) returns (k: nat)
    requires x >= 1
    ensures k >= 1 && Pow2(k - 1) <= x < Pow2(k)
  {
    if x == 1 {
      k := 1;
    } else {
      k := BitLength(x / 2);
      k := k + 1;
    }
  }

  lemma {:induction false} Pow2Sum(a: nat, b: nat, c: nat, v: int, w: int)
    requires c == a + b && Pow2(a) == v && Pow2(b) == w
    ensures Pow2(c) == v * w
  {
    Pow2Adds(a, b);
  }

  lemma {:induction false} Pow2Shifts()
    ensures Pow2(1) == 2 && Pow2(2) == 4 && Pow2(4) == 16 && Pow2(8) == 256
    ensures Pow2(16) == 65536 && Pow2(32) == 0x1_0000_0000
  {
    Pow2Sum(2, 2, 4, 4, 4);
    Pow2Sum(4, 4, 8, 16, 16);
    Pow2Sum(8, 8, 16, 256, 256);
    Pow2Sum(16, 16, 32, 65536, 65536);
  }

  lemma {:induction false} Pow2Limits()
    ensures Pow2(62) == TWO_62 && Pow2(63) == TWO_63
  {
    Pow2Shifts();
    Pow2Sum(32, 16, 48, 0x1_0000_0000, 65536);
    Pow2Sum(48, 8, 56, 0x1_0000_0000_0000, 256);
    Pow2Sum(56, 4, 60, 0x100_0000_0000_0000, 16);
    Pow2Sum(60, 2, 62, 0x1000_0000_0000_0000, 4);
    Pow2Sum(62, 1, 63, TWO_62, 2);
  }

  lemma {:induction false} LeastPow2Of(n: int, k: nat)
    requires k >= 1 && Pow2(k - 1) < n <= Pow2(k)
    ensures IsLeastPow2(n, Pow2(k))
  {
    forall q | IsPow2(q) && n <= q
      ensures Pow2(k) <= q
    {
      var j: nat :| q == Pow2(j);
      if j < k {
        if j < k - 1 {
          Pow2Grows(j, k - 1);
        }
      } else if k < j {
        Pow2Grows(k, j);
      }
    }
  }

  /**
   The least power of two at or above `n`, by smearing the leading one of `n - 1`
   downwards. The result is right for every `n` up to `2^62`; above that the sum leaves
   the 64-bit range and the function returns the most negative `int`.
   */
  method NextPowerOfTwo(n: int) returns (p: int)
    requires -TWO_63 <= n < TWO_63
    ensures n <= 1 ==> p == 1
    ensures 1 <= n <= TWO_62 ==> IsLeastPow2(n, p)
    ensures TWO_62 < n ==> p == -TWO_63
  {
    if n <= 1 {
      LeastPow2OfOne();
      return 1;
    }
    var x := n - 1;
    ghost var k := BitLength(x);
    assert TopOnes(x, k, 1);
    SmearStep(x, k, 1);
    x := BitOr(x, Shr(x, 1));
    SmearStep(x, k, 2);
    x := BitOr(x, Shr(x, 2));
    SmearStep(x, k, 4);
    x := BitOr(x, Shr(x, 4));
    SmearStep(x, k, 8);
    x := BitOr(x, Shr(x, 8));
    SmearStep(x, k, 16);
    x := BitOr(x, Shr(x, 16));
    SmearStep(x, k, 32);
    x := BitOr(x, Shr(x, 32));
    Smeared(n, k, x);
    p := Wrap64(x + 1);
  }

  /** Six smears fill a number of up to 64 bits with ones; adding one gives the power of two. */
  lemma {:induction false} Smeared(n: int, k: nat, x: nat)
    requires 1 < n < TWO_63 && k >= 1 && Pow2(k - 1) < n <= Pow2(k)
    requires TopOnes(x, k, 64)
    ensures n <= TWO_62 ==> x + 1 <= TWO_62 && IsLeastPow2(n, x + 1)
    ensures n > TWO_62 ==> x + 1 == TWO_63
  {
    Pow2Limits();
    BitLengthAtMost(n - 1, k, 63);
    LeastPow2Of(n, k);
    if n <= TWO_62 {
      BitLengthAtMost(n - 1, k, 62);
      Pow2Monotone(k, 62);
    } else if k < 63 {
      Pow2Monotone(k, 62);
    }
  }

  lemma {:induction false} Pow2Monotone(a: nat, b: nat)
    requires a <= b
    ensures Pow2(a) <= Pow2(b)
  {
    if a < b {
      Pow2Grows(a, b);
    }
  }

  lemma LeastPow2OfOne()
    ensures IsLeastPow2(1, 1)
  {
    assert Pow2(0) == 1;
    forall q | IsPow2(q) ensures 1 <= q {
      var j: nat :| q == Pow2(j);
    }
  }

  lemma {:induction false} BitLengthAtMost(x: nat, k: nat, bits: nat)
    requires k >= 1 && Pow2(k - 1) <= x < Pow2(bits)
    ensures k <= bits
  {
    if bits < k - 1 {
      Pow2Grows(bits, k - 1);
    }
  }
}
