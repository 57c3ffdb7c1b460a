/** Division with remainder by a variable divisor, in the small steps the solver needs. */
module Arithmetic {

  /** A non-zero multiple of `c` is at least `c` away from zero. */
  lemma MulGap(k: int, c: nat)
    ensures k >= 1 ==> k * c >= c
    ensures k <= -1 ==> k * c + c <= 0
  {
    if k >= 1 {
      MulNonNegative(k - 1, c);
      assert k * c == (k - 1) * c + c;
    } else if k <= -1 {
      MulNonNegative(-k - 1, c);
      assert k * c + c == 0 - (-k - 1) * c;
    }
  }

  lemma MulNonNegative(k: int, c: int)
    requires k >= 0 && c >= 0
    ensures k * c >= 0
  {
  }

  lemma MulDistributes(a: int, b: int, c: int)
    ensures (a - b) * c == a * c - b * c && (a + b) * c == a * c + b * c
  {
  }

  lemma MulAssociates(a: int, b: int, c: int)
    ensures a * b * c == a * (b * c)
  {
  }

  lemma DivUnique(a: int, c: nat, q: int, r: int)
    requires c > 0 && a == q * c + r && 0 <= r < c
    ensures a / c == q && a % c == r
  {
    var k := q - a / c;
    assert a == a / c * c + a % c;
    assert k * c == q * c - a / c * c;
    MulGap(k, c);
  }

  lemma MulDiv(q: int, c: nat)
    requires c > 0
    ensures q * c % c == 0 && q * c / c == q
  {
    DivUnique(q * c, c, q, 0);
  }

  lemma DivMul(a: nat, c: nat)
    requires c > 0
    ensures 0 <= a % c <= a && a / c * c == a - a % c && (a - a % c) % c == 0 && (a - a % c) / c == a / c
  {
    assert a == a / c * c + a % c;
    MulNonNegative(a / c, c);
    MulDiv(a / c, c);
  }

  lemma DivMonotone(a: nat, b: nat, c: nat)
    requires a <= b && c > 0
    ensures a / c <= b / c
  {
    var k := a / c - b / c;
    assert a == a / c * c + a % c && b == b / c * c + b % c;
    assert k * c == a / c * c - b / c * c;
    MulGap(k, c);
  }

  /** Taking `b` away loses a whole multiple of `c` exactly when `b` exceeds the remainder. */
  lemma DivShort(a: nat, b: nat, c: nat)
    requires c > 0 && b <= a
    ensures (a - b) / c < a / c <==> b > a % c
  {
    var q, r, p := a / c, a % c, (a - b) / c;
    assert a == q * c + r;
    if b <= r {
      DivUnique(a - b, c, q, r - b);
    } else {
      assert a - b == p * c + (a - b) % c;
      assert (p - q) * c == p * c - q * c;
      MulGap(p - q, c);
      MulNonNegative(if p >= q then p - q else 0, c);
    }
  }

  lemma RoundUpMultiple(x: nat, c: nat)
    requires c > 0
    ensures (x + (if x % c != 0 then c - x % c else 0)) % c == 0
  {
    var q, r := x / c, x % c;
    assert x == q * c + r;
    if r != 0 {
      assert x + (c - r) == (q + 1) * c;
      MulDiv(q + 1, c);
    }
  }

  lemma ScaledMod(x: nat, a: nat, c: nat)
    requires a > 0 && c > 0 && a * c > 0
    ensures (x * c) % (a * c) == (x % a) * c
  {
    var q, r := x / a, x % a;
    assert x == q * a + r;
    assert x * c == q * (a * c) + r * c;
    assert (a - r) * c == a * c - r * c;
    MulGap(a - r, c);
    MulNonNegative(r, c);
    DivUnique(x * c, a * c, q, r * c);
  }

  /** `n * m`, for proofs that only move such products around. */
  function Times(n: nat, m: nat): nat {
    if n == 0 then 0 else Times(n - 1, m) + m
  }

  lemma {:induction false} TimesIsProduct(n: nat, m: nat)
    ensures Times(n, m) == n * m
  {
    if n > 0 { TimesIsProduct(n - 1, m); }
  }

  lemma {:induction false} TimesMonotone(n: nat, k: nat, m: nat)
    requires n <= k
    ensures Times(n, m) <= Times(k, m)
  {
    if n < k { TimesMonotone(n, k - 1, m); }
  }

  lemma EvenSum(a: nat, b: nat)
    requires a % 2 == 0 && b % 2 == 0
    ensures (a + b) % 2 == 0
  {
  }

  lemma {:induction false} TimesEven(n: nat, m: nat)
    requires m % 2 == 0
    ensures Times(n, m) % 2 == 0
  {
    if n > 0 {
      TimesEven(n - 1, m);
      EvenSum(Times(n - 1, m), m);
    }
  }
}
