/** Binary digits of natural numbers: powers of two, bit tests, and the bitwise
    operators of the source, defined digit by digit. */
module Bits {
  import opened Arith

  function Pow2(k: nat): (r: nat)
    ensures r >= 1
  {
    if k == 0 then 1 else 2 * Pow2(k - 1)
  }

  lemma {:induction false} Pow2Add(a: nat, b: nat)
    ensures Pow2(a + b) == Pow2(a) * Pow2(b)
  {
    if a > 0 {
      Pow2Add(a - 1, b);
    }
  }

  lemma {:induction false} Pow2Mono(a: nat, b: nat)
    requires a <= b
    ensures Pow2(a) <= Pow2(b)
  {
    if a < b {
      Pow2Mono(a, b - 1);
    }
  }

  /** The powers the source writes as literals. */
  lemma Pow2Table()
    ensures Pow2(4) == 16 && Pow2(5) == 32 && Pow2(8) == 0x100 && Pow2(16) == 0x1_0000
    ensures Pow2(32) == 0x1_0000_0000 && Pow2(64) == 0x1_0000_0000_0000_0000
  {
    assert Pow2(4) == 16;
    Pow2Add(4, 4);
    Pow2Add(8, 8);
    Pow2Add(16, 16);
    Pow2Add(32, 32);
  }

  /** Binary digit `i` of `x`. */
  predicate Bit(x: nat, i: nat) {
    if i == 0 then x % 2 == 1 else Bit(x / 2, i - 1)
  }

  datatype BitOp = XorOp | AndOp | OrOp {
    function On(p: bool, q: bool): bool {
      match this
      case XorOp => p != q
      case AndOp => p && q
      case OrOp => p || q
    }
  }

  /** The low `k` digits of `a op b`. */
  function Bitwise(op: BitOp, a: nat, b: nat, k: nat): (r: nat)
    ensures r < Pow2(k)
  {
    if k == 0 then 0
    else 2 * Bitwise(op, a / 2, b / 2, k - 1) + (if op.On(a % 2 == 1, b % 2 == 1) then 1 else 0)
  }

  lemma {:induction false} BitOfBitwise(op: BitOp, a: nat, b: nat, k: nat, i: nat)
    requires i < k
    ensures Bit(Bitwise(op, a, b, k), i) == op.On(Bit(a, i), Bit(b, i))
  {
    if i > 0 {
      BitOfBitwise(op, a / 2, b / 2, k - 1, i - 1);
    }
  }

  /** Two numbers of `k` digits are equal when all their digits are. */
  lemma {:induction false} SameBits(x: nat, y: nat, k: nat)
    requires x < Pow2(k) && y < Pow2(k)
    requires forall i :: 0 <= i < k ==> Bit(x, i) == Bit(y, i)
    ensures x == y
  {
    if k > 0 {
      assert Bit(x, 0) == Bit(y, 0);
      forall i | 0 <= i < k - 1
        ensures Bit(x / 2, i) == Bit(y / 2, i)
      {
        assert Bit(x, i + 1) == Bit(y, i + 1);
      }
      SameBits(x / 2, y / 2, k - 1);
    }
  }

  /** Digits above the width are zero. */
  lemma {:induction false} HighBit(x: nat, k: nat, i: nat)
    requires x < Pow2(k) && k <= i
    ensures !Bit(x, i)
  {
    if i > 0 {
      if k > 0 {
        HighBit(x / 2, k - 1, i - 1);
      } else {
        assert x == 0;
        HighBit(0, 0, i - 1);
      }
    }
  }

  lemma {:induction false} BitOfShiftLeft(x: nat, n: nat, i: nat)
    ensures Bit(x * Pow2(n), i) == (n <= i && Bit(x, i - n))
  {
    if n > 0 {
      assert x * Pow2(n) == 2 * (x * Pow2(n - 1));
      if i > 0 {
        BitOfShiftLeft(x, n - 1, i - 1);
      }
    }
  }

  lemma {:induction false} BitOfShiftRight(x: nat, n: nat, i: nat)
    ensures (DivShrinks(x, Pow2(n)); Bit(x / Pow2(n), i) == Bit(x, i + n))
  {
    if n > 0 {
      DivTwice(x, Pow2(n - 1));
      BitOfShiftRight(x / 2, n - 1, i);
    }
  }

  lemma DivTwice(x: nat, p: nat)
    requires p > 0
    ensures x / (2 * p) == (x / 2) / p
  {
    HalvedParts(x, p);
  }

  lemma {:induction false} BitOfMod(x: nat, k: nat, i: nat)
    ensures Bit(x % Pow2(k), i) == (i < k && Bit(x, i))
  {
    if i >= k {
      HighBit(x % Pow2(k), k, i);
    } else {
      ModHalf(x, Pow2(k - 1));
      if i > 0 {
        BitOfMod(x / 2, k - 1, i - 1);
      }
    }
  }

  lemma ModHalf(x: nat, p: nat)
    requires p > 0
    ensures (x % (2 * p)) % 2 == x % 2
    ensures (x % (2 * p)) / 2 == (x / 2) % p
  {
    HalvedParts(x, p);
  }

  /** Numbers whose digits do not overlap are added by `|`. */
  lemma {:induction false} OrDisjoint(hi: nat, lo: nat, n: nat, k: nat)
    requires lo < Pow2(n) && n <= k && hi * Pow2(n) + lo < Pow2(k)
    ensures Bitwise(OrOp, hi * Pow2(n), lo, k) == hi * Pow2(n) + lo
  {
    if n > 0 {
      assert hi * Pow2(n) == 2 * (hi * Pow2(n - 1));
      OrDisjoint(hi, lo / 2, n - 1, k - 1);
    } else {
      OrZero(hi, k);
    }
  }

  lemma {:induction false} OrZero(x: nat, k: nat)
    requires x < Pow2(k)
    ensures Bitwise(OrOp, x, 0, k) == x
  {
    if k > 0 {
      OrZero(x / 2, k - 1);
    }
  }

  /** `x & (2^n - 1)` keeps the low `n` digits. */
  lemma {:induction false} AndMask(x: nat, n: nat, k: nat)
    requires n <= k
    ensures Bitwise(AndOp, x, Pow2(n) - 1, k) == x % Pow2(n)
  {
    if n > 0 {
      ModHalf(x, Pow2(n - 1));
      AndMask(x / 2, n - 1, k - 1);
      assert (Pow2(n) - 1) / 2 == Pow2(n - 1) - 1;
    } else {
      AndZero(x, k);
    }
  }

  lemma {:induction false} AndZero(x: nat, k: nat)
    ensures Bitwise(AndOp, x, 0, k) == 0
  {
    if k > 0 {
      AndZero(x / 2, k - 1);
    }
  }
}
