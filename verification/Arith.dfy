/** Elementary facts about products, quotients and remainders of naturals. */
module Arith {
  lemma {:induction false} MulMono(a: nat, b: nat, c: nat)
    requires a <= b
    ensures a * c <= b * c
  {
    if c > 0 {
      MulMono(a, b, c - 1);
    }
  }

  lemma MulAssoc(a: int, b: int, c: int)
    ensures (a * b) * c == a * (b * c)
  {
  }

  lemma MulComm(a: int, b: int)
    ensures a * b == b * a
  {
  }

  lemma DistSub(a: int, b: int, c: int)
    ensures a * (b - c) == a * b - a * c
  {
  }

  lemma DistAdd(a: int, b: int, c: int)
    ensures a * (b + c) == a * b + a * c && (b + c) * a == b * a + c * a
  {
  }

  lemma DivMod(x: nat, d: nat)
    requires d > 0
    ensures x == d * (x / d) + x % d && x / d >= 0 && 0 <= x % d < d
  {
  }

  lemma DivShrinks(x: nat, d: nat)
    requires d > 0
    ensures 0 <= x / d <= x
  {
    DivMod(x, d);
    var q := x / d;
    MulMono(1, d, q);
  }

  /** Quotient and remainder are unique. */
  lemma DivUnique(x: nat, d: nat, q: nat, r: nat)
    requires d > 0 && r < d && x == d * q + r
    ensures x / d == q && x % d == r
  {
    var q', r' := x / d, x % d;
    DivMod(x, d);
    DistSub(d, q, q');
    if q > q' {
      MulMono(1, q - q', d);
      MulComm(d, q - q');
    } else if q' > q {
      MulMono(1, q' - q, d);
      MulComm(d, q' - q);
      DistSub(d, q', q);
    }
  }

  /** Halving a number divided by `2 * p`. */
  lemma HalvedParts(x: nat, p: nat)
    requires p > 0
    ensures 0 <= x % (2 * p) < 2 * p && x / 2 / p == x / (2 * p) && x / 2 % p == x % (2 * p) / 2 && x % (2 * p) % 2 == x % 2
  {
    DivMod(x, 2 * p);
    HalvedSum(x, p, x / (2 * p), x % (2 * p));
  }

  lemma HalvedSum(x: nat, p: nat, q: int, r: int)
    requires p > 0 && x == 2 * p * q + r && 0 <= r < 2 * p && q >= 0
    ensures x / 2 / p == q && x / 2 % p == r / 2 && r % 2 == x % 2
  {
    MulAssoc(2, p, q);
    HalfOf(x, p * q, r);
    DivUnique(x / 2, p, q, r / 2);
  }

  /** A quotient below a bound on the dividend. */
  lemma DivBound(x: nat, d: nat, q: nat)
    requires d > 0 && x < d * q
    ensures x / d < q
  {
    DivMod(x, d);
    if x / d >= q {
      MulMono(q, x / d, d);
      MulComm(q, d);
      MulComm(x / d, d);
    }
  }

  /** Two-digit numbers: a low digit below `q` and a high digit below `p`. */
  lemma TwoDigits(hi: nat, lo: nat, p: nat, q: nat)
    requires hi < p && lo < q
    ensures hi * q + lo < p * q
  {
    MulMono(hi + 1, p, q);
    assert (hi + 1) * q == hi * q + q;
  }

  lemma ModMul(k: int, d: nat, r: nat)
    requires r < d && k * d + r >= 0
    ensures k >= 0 && (k * d + r) % d == r && (k * d + r) / d == k
  {
    MulComm(k, d);
    DivUnique(k * d + r, d, k, r);
  }

  lemma HalfOf(x: nat, m: nat, r: nat)
    requires x == 2 * m + r
    ensures x / 2 == m + r / 2 && x % 2 == r % 2
  {
  }
}
