/** Powers of two and bit masks on natural numbers. */
module Bits {

  function Pow2(k: nat): (p: nat)
    ensures p > 0
  {
    if k == 0 then 1 else 2 * Pow2(k - 1)
  }

  /** Bitwise and. */
  function And(a: nat, b: nat): (c: nat)
    ensures c <= a
    decreases a
  {
    if a == 0 || b == 0 then 0
    else 2 * And(a / 2, b / 2) + (if a % 2 == 1 && b % 2 == 1 then 1 else 0)
  }

  lemma AndStep(a: nat, half: nat)
    requires half > 0
    ensures And(a, 2 * half - 1) == 2 * And(a / 2, half - 1) + a % 2
  {
  }

  lemma MulAtLeast(n: nat, a: nat, b: nat)
    requires a < b
    ensures n * b >= n * a + n
  {
    assert n * b == n * a + n * (b - a);
    assert n * (b - a) == n + n * (b - a - 1);
  }

  lemma ModUnique(a: nat, n: nat, q: nat, r: nat)
    requires n > 0 && a == n * q + r && r < n
    ensures a % n == r
  {
    var q1, r1 := a / n, a % n;
    assert a == n * q1 + r1;
    if q1 > q {
      MulAtLeast(n, q, q1);
    } else if q1 < q {
      MulAtLeast(n, q1, q);
    }
  }

  lemma HalfMod(a: nat, half: nat)
    requires half > 0
    ensures a % (2 * half) == 2 * ((a / 2) % half) + a % 2
  {
    var q, r := (a / 2) / half, (a / 2) % half;
    assert a == 2 * (half * q + r) + a % 2;
    assert a == (2 * half) * q + (2 * r + a % 2);
    ModUnique(a, 2 * half, q, 2 * r + a % 2);
  }

  /** Masking with a power of two less one is the remainder. */
  lemma {:induction false} MaskIsMod(a: nat, k: nat)
    ensures And(a, Pow2(k) - 1) == a % Pow2(k)
    decreases k
  {
    if k > 0 {
      AndStep(a, Pow2(k - 1));
      MaskIsMod(a / 2, k - 1);
      HalfMod(a, Pow2(k - 1));
    }
  }

  lemma IntMulAtLeast(d: nat, a: int, b: int)
    requires a < b
    ensures d * b >= d * a + d
  {
    assert d * b == d * a + d * (b - a);
    assert d * (b - a) == d + d * (b - a - 1);
  }

  lemma DivUnique(n: int, d: nat, q: int, r: nat)
    requires d > 0 && n == d * q + r && r < d
    ensures n / d == q
  {
    var q1, r1 := n / d, n % d;
    assert n == d * q1 + r1;
    if q1 > q {
      IntMulAtLeast(d, q, q1);
    } else if q1 < q {
      IntMulAtLeast(d, q1, q);
    }
  }

  lemma Pow2Values()
    ensures Pow2(30) == 0x4000_0000 && Pow2(31) == 0x8000_0000
  {
    assert Pow2(5) == 32;
    assert Pow2(10) == 0x400;
    assert Pow2(15) == 0x8000;
    assert Pow2(20) == 0x10_0000;
    assert Pow2(25) == 0x200_0000;
  }

  lemma Pow2Monotone(j: nat, k: nat)
    requires j <= k
    ensures Pow2(j) <= Pow2(k)
  {
  }

  ghost predicate PowerOfTwo(n: nat) {
    exists k: nat :: n == Pow2(k)
  }
}
