/** 64-bit two's-complement integers, the `intptr_t` of the program. */
module CInt {

  const MODULUS: int := 0x1_0000_0000_0000_0000
  const MIN: int := -0x8000_0000_0000_0000
  const MAX: int := 0x7FFF_FFFF_FFFF_FFFF

  type word = v: int | MIN <= v <= MAX

  /** The word congruent to `v`. */
  function Wrap(v: int): (w: word)
    ensures MIN <= v <= MAX ==> w == v
  {
    (v - MIN) % MODULUS + MIN
  }

  function Plus(a: word, b: word): word {
    var x: int, y: int := a, b; Wrap(x + y)
  }

  function Minus(a: word, b: word): word {
    var x: int, y: int := a, b; Wrap(x - y)
  }

  function Negate(a: word): word {
    var x: int := a; Wrap(0 - x)
  }

  function Times(a: word, b: word): word {
    var x: int, y: int := a, b; Wrap(x * y)
  }

  /** Division truncates toward zero (section 6.5.5 of ISO/IEC 9899:2011). The two
      undefined cases get a value: 0 for a zero divisor, which is what constant
      folding produces, and MIN for MIN / -1. */
  function Divide(a: word, b: word): word {
    var x: int, y: int := a, b;
    if y == 0 then 0
    else
      var q := (if x < 0 then 0 - x else x) / (if y < 0 then 0 - y else y);
      Wrap(if (x < 0) == (y < 0) then q else 0 - q)
  }

  lemma QuotientAndRest(m: nat, n: nat) returns (q: nat, r: nat)
    requires n > 0
    ensures q == m / n && m == n * q + r && r < n
  {
    q, r := m / n, m % n;
  }

  lemma QuotientFits(m: nat, n: nat, q: nat, r: nat)
    requires n > 0 && m == n * q + r
    ensures if n == 1 then r == 0 ==> q == m else 2 * q <= m
  {
    if n > 1 {
      assert (n - 2) * q >= 0;
    }
  }

  lemma Signs(y: int, q: int)
    ensures (0 - y) * q == 0 - y * q && y * (0 - q) == 0 - y * q
  {
  }

  /** The quotient of the absolute values with the sign the operands give it. */
  lemma SignedQuotient(x: int, y: int) returns (q: int, r: int)
    requires y != 0
    ensures var m, n := if x < 0 then 0 - x else x, if y < 0 then 0 - y else y;
            && q == (if (x < 0) == (y < 0) then m / n else 0 - m / n)
            && (if n == 1 then q == x * y else 0 - m <= 2 * q <= m)
    ensures x == y * q + r
    ensures if y < 0 then y < r < 0 - y else 0 - y < r < y
    ensures r == 0 || (r < 0 <==> x < 0)
  {
    var m, n := if x < 0 then 0 - x else x, if y < 0 then 0 - y else y;
    var p: int, s: int := QuotientAndRest(m, n);
    QuotientFits(m, n, p, s);
    Signs(y, p);
    q, r := if (x < 0) == (y < 0) then p else 0 - p, if x < 0 then 0 - s else s;
  }

  /** `q` is the quotient rounded toward zero: the remainder is smaller than the
      divisor and has the sign of the dividend. */
  predicate Truncated(x: int, y: int, q: int) {
    var r := x - y * q;
    && (if y < 0 then y < r < 0 - y else 0 - y < r < y)
    && (r == 0 || (r < 0 <==> x < 0))
  }

  lemma DivideTruncates(a: word, b: word)
    requires b != 0 && !(a == -9223372036854775808 && b == -1)
    ensures Truncated(a, b, Divide(a, b))
  {
    var x: int, y: int := a, b;
    var q, r := SignedQuotient(x, y);
    assert Wrap(q) == q;
    assert Divide(a, b) == Wrap(q);
    assert x - y * q == r;
  }

  lemma AtLeastOnce(y: int, d: int)
    requires d > 0
    ensures y > 0 ==> y * d >= y
    ensures y < 0 ==> y * d <= y
  {
    if y > 0 {
      assert y * (d - 1) >= 0;
    } else if y < 0 {
      assert (0 - y) * (d - 1) >= 0;
    }
  }

  lemma RemainderGap(x: int, y: int, p: int, q: int)
    requires p < q
    ensures var r, s := x - y * p, x - y * q;
            (y > 0 ==> r - s >= y) && (y < 0 ==> r - s <= y)
  {
    AtLeastOnce(y, q - p);
    assert y * (q - p) == y * q - y * p;
  }

  lemma TruncatedOnce(x: int, y: int, p: int, q: int)
    requires Truncated(x, y, p) && Truncated(x, y, q)
    ensures p == q
  {
    if p < q {
      RemainderGap(x, y, p, q);
    } else if q < p {
      RemainderGap(x, y, q, p);
    }
  }

  /** The undefined divisions as the model fixes them. */
  lemma DivideUndefined(a: word)
    ensures Divide(a, 0) == 0
    ensures Divide(-9223372036854775808, -1) == -9223372036854775808
  {
  }

  lemma WrapCongruent(v: int) returns (k: int)
    ensures Wrap(v) == v + k * MODULUS
  {
    k := -((v - MIN) / MODULUS);
  }

  lemma WrapModular(v: int)
    ensures (v - Wrap(v)) % 18446744073709551616 == 0
    ensures -9223372036854775808 <= Wrap(v) <= 9223372036854775807
  {
    var k := WrapCongruent(v);
    assert v - Wrap(v) == -k * MODULUS;
  }

  lemma WrapUnique(v: int, k: int)
    ensures Wrap(v + k * MODULUS) == Wrap(v)
  {
  }

  lemma PlusAssoc(a: word, b: word, c: word)
    ensures Plus(Plus(a, b), c) == Plus(a, Plus(b, c))
  {
    var x: int, y: int, z: int := a, b, c;
    var k := WrapCongruent(x + y);
    var m := WrapCongruent(y + z);
    var l: int, r: int, sum := Plus(a, b), Plus(b, c), x + y + z;
    WrapUnique(sum, k);
    WrapUnique(sum, m);
    assert l + z == sum + k * MODULUS && x + r == sum + m * MODULUS;
  }

  lemma PlusNegate(a: word, b: word)
    ensures Plus(a, Negate(b)) == Minus(a, b)
    ensures Negate(Negate(b)) == b
    ensures Plus(b, Negate(b)) == 0
  {
    if b == MIN {
      var x: int := a;
      WrapUnique(x - b, -1);
    }
  }

  /** Taking `c` for its negation is off by twice `c`. */
  lemma WrongSign(c: word, b: word)
    ensures Plus(c, b) == Plus(Plus(Negate(c), b), Plus(c, c))
  {
    var n, d := Negate(c), Plus(c, c);
    calc {
      Plus(Plus(n, b), d);
      { PlusAssoc(n, b, d); }
      Plus(n, Plus(b, d));
      { PlusAssoc(b, c, c); }
      Plus(n, Plus(Plus(b, c), c));
      { PlusAssoc(n, Plus(b, c), c); PlusAssoc(n, c, Plus(b, c)); PlusNegate(c, c); }
      Plus(0, Plus(b, c));
      Plus(c, b);
    }
  }

  /** Subtracting the negation adds. */
  lemma MinusNegate(a: word, b: word)
    ensures Minus(a, Negate(b)) == Plus(a, b)
  {
  }

  lemma PlusCancels(a: word, b: word)
    ensures Plus(a, b) == a <==> b == 0
  {
  }

  /** Doubling vanishes for 0 and for the most negative word only. */
  lemma DoubleIsZero(a: word)
    ensures Plus(a, a) == 0 <==> a == 0 || a == MIN
  {
  }
}
