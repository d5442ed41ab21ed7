/** Sizes of the light cache and of the DAG: the largest prime number of rows below a bound
    that grows with the epoch. */
module Sizing {
  import opened Arith
  import opened Words
  import opened Options

  const CACHE_BYTES_INIT: nat := 0x100_0000
  const CACHE_BYTES_GROWTH: nat := 0x2_0000
  const DATASET_BYTES_INIT: nat := 0x4000_0000
  const DATASET_BYTES_GROWTH: nat := 0x80_0000
  const U64_LIMIT: nat := 0x1_0000_0000_0000_0000

  ghost predicate Prime(n: nat) { n >= 2 && forall d :: 2 <= d < n ==> n % d != 0 }

  /** A composite number has a factor up to its square root, and an odd one an odd factor. */
  lemma SmallFactor(n: nat, d: nat) returns (e: nat)
    requires 2 <= d < n && n % d == 0
    ensures 2 <= e < n && n % e == 0 && e * e <= n
  {
    var q := n / d;
    DivMod(n, d);
    assert n == d * q;
    AtLeastTwo(n, d, q);
    if d <= q {
      e := d;
      MulMono(d, q, d);
    } else {
      e := q;
      MulMono(q, d, q);
      DivUnique(n, q, d, 0);
      MulMono(2, d, q);
    }
  }

  lemma AtLeastTwo(n: nat, d: nat, q: nat)
    requires 2 <= d < n && n == d * q
    ensures q >= 2
  {
    var rest := q - 1;
    DistAdd(d, rest, 1);
  }

  lemma FactorsOfOdd(n: nat, e: nat)
    requires n % 2 == 1 && e >= 1 && n % e == 0
    ensures e % 2 == 1
  {
    DivMod(n, e);
    if e % 2 == 0 {
      EvenTimes(e, n / e);
    }
  }

  lemma EvenTimes(a: nat, b: nat)
    requires a % 2 == 0
    ensures a * b % 2 == 0
  {
    MulAssoc(2, a / 2, b);
  }

  lemma SquareMono(a: nat, b: nat)
    ensures a <= b ==> a * a <= b * b
  {
    if a <= b {
      MulMono(a, b, a);
      MulMono(a, b, b);
    }
  }

  /** The square of the largest 32-bit number: from here on a prime makes `i * i` overflow 64 bits. */
  const FIRST_OVERFLOW: nat := 0xFFFF_FFFE_0000_0001

  /** Odd trial division up to the square root; `None` is an overflow of `i * i`. It decides primality
      except for the primes from (2^32 - 1)^2 on, which overflow. */
  method IsPrime(n: U64) returns (r: Option<bool>)
    ensures r == if Prime(n) && n >= FIRST_OVERFLOW then None else Some(Prime(n))
  {
    if n < 2 {
      return Some(false);
    }
    if n % 2 == 0 {
      assert n > 2 ==> n % 2 == 0 && !Prime(n);
      return Some(n == 2);
    }
    var i := 3;
    while true
      invariant 3 <= i <= 0x1_0000_0001 && i % 2 == 1
      invariant forall d :: 2 <= d < i ==> n % d != 0
      invariant i > 0xFFFF_FFFF ==> n >= FIRST_OVERFLOW
      decreases 0x1_0000_0002 - i
    {
      SquareBounds(i);
      if i * i >= 0x1_0000_0000_0000_0000 {
        PrimeAbove(n, i);
        return None;
      }
      if i * i > n {
        PrimeAbove(n, i);
        return Some(true);
      }
      TrialStep(n, i);
      if n % i == 0 {
        return Some(false);
      }
      i := i + 2;
    }
  }

  /** Squares fit 64 bits up to 2^32 - 1. */
  lemma SquareBounds(i: nat)
    ensures i <= 0xFFFF_FFFF ==> i * i <= FIRST_OVERFLOW
    ensures i > 0xFFFF_FFFF ==> i * i >= 0x1_0000_0000_0000_0000
    ensures i == 0xFFFF_FFFF ==> i * i == FIRST_OVERFLOW
  {
    if i <= 0xFFFF_FFFF {
      SquareMono(i, 0xFFFF_FFFF);
    } else {
      SquareMono(0x1_0000_0000, i);
    }
  }

  lemma TrialStep(n: nat, i: nat)
    requires n % 2 == 1 && i >= 3 && i % 2 == 1 && i * i <= n
    ensures i < n && n % (i + 1) != 0
  {
    BelowSquare(i, n);
    if n % (i + 1) == 0 {
      FactorsOfOdd(n, i + 1);
    }
  }

  lemma PrimeAbove(n: nat, i: nat)
    requires n >= 2 && n < i * i
    requires forall d :: 2 <= d < i ==> n % d != 0
    ensures Prime(n)
  {
    if !Prime(n) {
      var d :| 2 <= d < n && n % d == 0;
      var e := SmallFactor(n, d);
      SquareMono(i, e);
    }
  }

  lemma BelowSquare(i: nat, n: nat)
    requires i >= 2 && i * i <= n
    ensures i < n
  {
    MulMono(2, i, i);
  }

  /** The largest prime that is at most `q`. */
  ghost predicate LargestPrime(p: nat, q: nat) {
    Prime(p) && p <= q && forall m :: p < m <= q ==> !Prime(m)
  }

  /** A size is a whole number of rows of `unit` bytes. */
  predicate Whole(size: nat, unit: nat)
    requires unit > 0
  {
    size % unit == 0
  }

  function Rows(size: nat, unit: nat): (q: nat)
    requires unit > 0
    ensures q <= size
  {
    DivShrinks(size, unit);
    size / unit
  }

  /** The downward search: quotients stay odd, so the search stops at 3 at the latest and
      skips only even numbers above 2. */
  method SearchDown(start: nat, unit: nat) returns (size: nat)
    requires unit in {64, 128} && Whole(start, unit)
    requires Rows(start, unit) % 2 == 1 && 3 <= Rows(start, unit)
    requires start < U64_LIMIT
    ensures Whole(size, unit) && size <= start && Rows(size, unit) % 2 == 1
    ensures LargestPrime(Rows(size, unit), Rows(start, unit))
  {
    hide Prime, Whole, Rows;
    var sz: nat := start;
    ghost var top := Rows(start, unit);
    ThreeIsPrime();
    SmallEnough(sz, unit);
    var prime := Decide(Rows(sz, unit));
    while !prime
      invariant Whole(sz, unit) && sz <= start
      invariant Rows(sz, unit) % 2 == 1 && 3 <= Rows(sz, unit) <= top
      invariant prime == Prime(Rows(sz, unit))
      invariant forall m :: Rows(sz, unit) < m <= top ==> !Prime(m)
      decreases sz
    {
      assert Rows(sz, unit) > 3;
      EvenNotPrime(Rows(sz, unit) - 1);
      StepDown(sz, unit);
      sz := sz - 2 * unit;
      SmallEnough(sz, unit);
      prime := Decide(Rows(sz, unit));
    }
    size := sz;
  }

  /** No quotient of a size overflows the test. */
  method Decide(n: nat) returns (prime: bool)
    requires n < FIRST_OVERFLOW
    ensures prime == Prime(n)
  {
    hide Prime;
    var r := IsPrime(n);
    prime := r.value;
  }

  lemma SmallEnough(sz: nat, unit: nat)
    requires unit in {64, 128} && sz < U64_LIMIT
    ensures Rows(sz, unit) < FIRST_OVERFLOW
  {
  }

  lemma StepDown(sz: nat, unit: nat)
    requires unit in {64, 128} && Whole(sz, unit) && Rows(sz, unit) >= 2
    ensures sz >= 2 * unit && Whole(sz - 2 * unit, unit) && Rows(sz - 2 * unit, unit) == Rows(sz, unit) - 2
  {
  }

  lemma ThreeIsPrime()
    ensures Prime(3)
  {
  }

  lemma EvenNotPrime(m: nat)
    requires m > 2 && m % 2 == 0
    ensures !Prime(m)
  {
    assert m % 2 == 0;
  }

  /** The linear bounds of the source, one step below which the searches start. */
  function CacheBound(epoch: nat): nat { CACHE_BYTES_INIT + CACHE_BYTES_GROWTH * epoch }
  function FullBound(epoch: nat): nat { DATASET_BYTES_INIT + DATASET_BYTES_GROWTH * epoch }

  /** A bound of `2 * m` units, and the odd quotient one unit below it. */
  lemma BelowBound(bound: nat, unit: nat, m: nat)
    requires unit in {64, 128} && m >= 2 && bound == 2 * m * unit
    ensures bound / unit == 2 * m && (bound - unit) % unit == 0 && (bound - unit) / unit == 2 * m - 1
  {
    DivUnique(bound, unit, 2 * m, 0);
    DivUnique(bound - unit, unit, 2 * m - 1, 0);
  }

  method GetCacheSize(epoch: nat) returns (size: nat)
    requires CacheBound(epoch) < U64_LIMIT
    ensures size % 64 == 0 && size / 64 % 2 == 1
    ensures LargestPrime(size / 64, CacheBound(epoch) / 64 - 1)
  {
    BelowBound(CacheBound(epoch), 64, 0x2_0000 + 0x400 * epoch);
    var sz := CACHE_BYTES_INIT + CACHE_BYTES_GROWTH * epoch - 64;
    hide LargestPrime;
    size := SearchDown(sz, 64);
  }

  method GetFullSize(epoch: nat) returns (size: nat)
    requires FullBound(epoch) < U64_LIMIT
    ensures size % 128 == 0 && size / 128 % 2 == 1
    ensures LargestPrime(size / 128, FullBound(epoch) / 128 - 1)
  {
    BelowBound(FullBound(epoch), 128, 0x40_0000 + 0x8000 * epoch);
    var sz := DATASET_BYTES_INIT + DATASET_BYTES_GROWTH * epoch - 128;
    hide LargestPrime;
    size := SearchDown(sz, 128);
  }

  /** Both bounds grow with the epoch from 128 steps, of 128 KiB for the cache and 8 MiB for the dataset. */
  lemma BoundsGrow(epoch: nat)
    ensures CacheBound(epoch) == (128 + epoch) * 128 * 1024
    ensures FullBound(epoch) == (128 + epoch) * 8 * 1024 * 1024 && FullBound(epoch) == 64 * CacheBound(epoch)
  {
  }
}
