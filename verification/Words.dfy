/** The source's `u32`: a number below 2^32 with wrapping arithmetic and bitwise
    operators, next to the GLSL helpers of the search shader that must agree with
    the Rust intrinsics. */
module Words {
  import opened Arith
  import opened Bits

  const FNV_PRIME: Word := 0x0100_0193
  const FNV_OFFSET_BASIS: Word := 0x811C_9DC5

  type Byte = x: nat | x < 256
  type U64 = x: nat | x < 0x1_0000_0000_0000_0000
  type Word = x: nat | x < 0x1_0000_0000

  /** Truncation `as u32`. */
  function Low32(x: nat): Word { x % 0x1_0000_0000 }

  function Add(a: Word, b: Word): Word { (a + b) % 0x1_0000_0000 }
  function Mul(a: Word, b: Word): Word { (a * b) % 0x1_0000_0000 }
  function MulHi(a: Word, b: Word): Word {
    ProductFits(a, b);
    a * b / 0x1_0000_0000
  }
  function MinU32(a: Word, b: Word): Word { if a <= b then a else b }

  function Bitwise32(op: BitOp, a: Word, b: Word): Word {
    Pow2Table();
    Bitwise(op, a, b, 32)
  }
  function Xor(a: Word, b: Word): Word { Bitwise32(XorOp, a, b) }
  function And(a: Word, b: Word): Word { Bitwise32(AndOp, a, b) }
  function Or(a: Word, b: Word): Word { Bitwise32(OrOp, a, b) }
  function Not(a: Word): Word { 0x1_0000_0000 - 1 - a }

  function Shl(x: Word, n: nat): Word { (x * Pow2(n)) % 0x1_0000_0000 }
  function Shr(x: Word, n: nat): Word {
    DivShrinks(x, Pow2(n));
    x / Pow2(n)
  }

  /** Exchanges the high digit (base `q`) and the low digit (base `p`) of `x`. */
  function SwapDigits(x: nat, p: nat, q: nat): (r: nat)
    requires p > 0 && x < p * q
    ensures r < p * q
  {
    DivBound(x, p, q);
    DivShrinks(x, p);
    TwoDigits(x % p, x / p, p, q);
    x % p * q + x / p
  }

  lemma SwapTwice(x: nat, p: nat, q: nat)
    requires p > 0 && q > 0 && x < p * q && p * q == q * p
    ensures SwapDigits(SwapDigits(x, p, q), q, p) == x
  {
    var lo, hi := x % p, x / p;
    DivBound(x, p, q);
    DivMod(x, p);
    MulComm(lo, q);
    MulComm(hi, p);
    DivUnique(SwapDigits(x, p, q), q, lo, hi);
  }

  /** `rotate_left`: the top `n mod 32` digits move to the bottom. */
  function Rotl(x: Word, n: nat): Word {
    var m := n % 32;
    RotateFits(m);
    SwapDigits(x, Pow2(32 - m), Pow2(m))
  }

  /** `rotate_right`: the low `n mod 32` digits move to the top. */
  function Rotr(x: Word, n: nat): Word {
    var m := n % 32;
    RotateFits(32 - m);
    SwapDigits(x, Pow2(m), Pow2(32 - m))
  }

  /** `leading_zeros` of the low `k` digits. */
  function LeadingZeros(x: nat, k: nat): nat {
    if k == 0 || Bit(x, k - 1) then 0 else 1 + LeadingZeros(x, k - 1)
  }
  function Clz(x: Word): (r: Word)
  {
    ClzBound(x, 32);
    LeadingZeros(x, 32)
  }

  /** `count_ones` of the low `k` digits. */
  function Ones(x: nat, k: nat): nat {
    if k == 0 then 0 else Ones(x / 2, k - 1) + x % 2
  }
  function PopCount(x: Word): Word {
    OnesBound(x, 32);
    Ones(x, 32)
  }

  /** `swap_bytes`. */
  function Swab(x: Word): Word {
    x % 0x100 * 0x100_0000 + x / 0x100 % 0x100 * 0x1_0000 + x / 0x1_0000 % 0x100 * 0x100 + x / 0x100_0000
  }

  function Fnv1a(h: Word, d: Word): Word { Mul(Xor(h, d), FNV_PRIME) }
  function Fnv(a: Word, b: Word): Word { Xor(Mul(a, FNV_PRIME), b) }

  // ---- ranges ----

  lemma ProductFits(a: Word, b: Word)
    ensures 0 <= a * b / 0x1_0000_0000 < 0x1_0000_0000
  {
    MulMono(0, a, b);
    MulMono(a, 0xFFFF_FFFF, b);
    var p := a * b;
    assert 0 <= p <= 0xFFFF_FFFF * b;
    QuotientFits(p);
  }

  lemma QuotientFits(p: nat)
    requires p <= 0xFFFF_FFFF * 0xFFFF_FFFF
    ensures p / 0x1_0000_0000 < 0x1_0000_0000
  {
  }

  lemma RotateFits(n: nat)
    requires n <= 32
    ensures Pow2(32 - n) * Pow2(n) == 0x1_0000_0000 == Pow2(n) * Pow2(32 - n)
  {
    Pow2Add(32 - n, n);
    Pow2Add(n, 32 - n);
    Pow2Table();
  }

  lemma {:induction false} ClzBound(x: nat, k: nat)
    ensures LeadingZeros(x, k) <= k
  {
    if k > 0 {
      ClzBound(x, k - 1);
    }
  }

  lemma {:induction false} OnesBound(x: nat, k: nat)
    ensures Ones(x, k) <= k
  {
    if k > 0 {
      OnesBound(x / 2, k - 1);
    }
  }

  // ---- bits ----

  lemma BitXor(a: Word, b: Word, i: nat)
    requires i < 32
    ensures Bit(Xor(a, b), i) == (Bit(a, i) != Bit(b, i))
  {
    BitOfBitwise(XorOp, a, b, 32, i);
  }

  lemma BitAnd(a: Word, b: Word, i: nat)
    requires i < 32
    ensures Bit(And(a, b), i) == (Bit(a, i) && Bit(b, i))
  {
    BitOfBitwise(AndOp, a, b, 32, i);
  }

  lemma BitOr(a: Word, b: Word, i: nat)
    requires i < 32
    ensures Bit(Or(a, b), i) == (Bit(a, i) || Bit(b, i))
  {
    BitOfBitwise(OrOp, a, b, 32, i);
  }

  lemma {:induction false} BitNotK(x: nat, k: nat, i: nat)
    requires x < Pow2(k) && i < k
    ensures Bit(Pow2(k) - 1 - x, i) == !Bit(x, i)
  {
    HalfComplement(Pow2(k - 1), x);
    if i > 0 {
      BitNotK(x / 2, k - 1, i - 1);
    }
  }

  lemma HalfComplement(m: nat, x: nat)
    requires x < 2 * m
    ensures (2 * m - 1 - x) / 2 == m - 1 - x / 2 && (2 * m - 1 - x) % 2 == 1 - x % 2 && x / 2 < m
  {
  }

  lemma BitNot(x: Word, i: nat)
    requires i < 32
    ensures Bit(Not(x), i) == !Bit(x, i)
  {
    Pow2Table();
    BitNotK(x, 32, i);
  }

  lemma SameWord(x: Word, y: Word)
    requires forall i :: 0 <= i < 32 ==> Bit(x, i) == Bit(y, i)
    ensures x == y
  {
    Pow2Table();
    SameBits(x, y, 32);
  }

  lemma {:induction false} BitOfSum(hi: nat, lo: nat, n: nat, i: nat)
    requires lo < Pow2(n)
    ensures Bit(hi * Pow2(n) + lo, i) == if i < n then Bit(lo, i) else Bit(hi, i - n)
  {
    if n > 0 {
      var h := hi * Pow2(n - 1);
      assert hi * Pow2(n) == 2 * h;
      HalfOf(2 * h + lo, h, lo);
      if i > 0 {
        BitOfSum(hi, lo / 2, n - 1, i - 1);
      }
    }
  }

  lemma BitOfBytes(b0: nat, b1: nat, b2: nat, b3: nat, i: nat)
    requires b0 < 0x100 && b1 < 0x100 && b2 < 0x100 && b3 < 0x100 && i < 32
    ensures Bit(b0 * 0x100_0000 + b1 * 0x1_0000 + b2 * 0x100 + b3, i) ==
            if i < 8 then Bit(b3, i) else if i < 16 then Bit(b2, i - 8) else if i < 24 then Bit(b1, i - 16) else Bit(b0, i - 24)
  {
    Pow2Table();
    Pow2Add(8, 16);
    var lo := b2 * 0x100 + b3;
    var mid := b1 * 0x1_0000 + lo;
    BitOfSum(b0, mid, 24, i);
    if i < 24 {
      BitOfSum(b1, lo, 16, i);
    }
    if i < 16 {
      BitOfSum(b2, b3, 8, i);
    }
  }

  lemma BitShl(x: Word, n: nat, i: nat)
    requires i < 32
    ensures Bit(Shl(x, n), i) == (n <= i && Bit(x, i - n))
  {
    assert Pow2(32) == 0x1_0000_0000 by { Pow2Table(); }
    hide Bit, Pow2;
    BitOfShiftLeft(x, n, i);
    var y := x * Pow2(n);
    BitOfMod(y, 32, i);
    assert Shl(x, n) == y % 0x1_0000_0000;
  }

  lemma ShrBit(x: Word, n: nat, i: nat)
    ensures Bit(Shr(x, n), i) == Bit(x, i + n)
  {
    BitOfShiftRight(x, n, i);
  }

  lemma BitShr(x: Word, n: nat, i: nat)
    requires i < 32
    ensures Bit(Shr(x, n), i) == (i + n < 32 && Bit(x, i + n))
  {
    ShrBit(x, n, i);
    if i + n >= 32 {
      Pow2Table();
      HighBit(x, 32, i + n);
    }
  }

  lemma SwapParts(x: nat, p: nat, q: nat)
    requires p > 0 && x < p * q
    ensures 0 <= x / p < q && 0 <= x % p && SwapDigits(x, p, q) == x % p * q + x / p
  {
    DivMod(x, p);
    DivBound(x, p, q);
  }

  lemma BitOfSwap(x: nat, k: nat, m: nat, i: nat)
    requires x < Pow2(k) * Pow2(m) && i < k + m
    ensures Bit(SwapDigits(x, Pow2(k), Pow2(m)), i) == if i < m then Bit(x, i + k) else Bit(x, i - m)
  {
    hide Pow2, Bit, SwapDigits;
    SwapParts(x, Pow2(k), Pow2(m));
    BitOfSum(x % Pow2(k), x / Pow2(k), m, i);
    if i < m {
      BitOfShiftRight(x, k, i);
    } else {
      BitOfMod(x, k, i - m);
    }
  }

  lemma BitRotl(x: Word, n: nat, i: nat)
    requires i < 32
    ensures Bit(Rotl(x, n), i) == Bit(x, (i + 32 - n % 32) % 32)
  {
    var m := n % 32;
    RotateFits(m);
    hide Pow2, Bit, SwapDigits;
    BitOfSwap(x, 32 - m, m, i);
    assert (i + 32 - m) % 32 == if i < m then i + 32 - m else i - m;
  }

  // ---- xor is a group, rotations are inverse to each other ----

  lemma XorXor(a: Word, b: Word)
    ensures Xor(Xor(a, b), b) == a
  {
    forall i | 0 <= i < 32
      ensures Bit(Xor(Xor(a, b), b), i) == Bit(a, i)
    {
      BitXor(Xor(a, b), b, i);
      BitXor(a, b, i);
    }
    SameWord(Xor(Xor(a, b), b), a);
  }

  lemma XorComm(a: Word, b: Word)
    ensures Xor(a, b) == Xor(b, a)
  {
    forall i | 0 <= i < 32
      ensures Bit(Xor(a, b), i) == Bit(Xor(b, a), i)
    {
      BitXor(a, b, i);
      BitXor(b, a, i);
    }
    SameWord(Xor(a, b), Xor(b, a));
  }

  lemma RotateBack(x: Word, n: nat)
    ensures Rotr(Rotl(x, n), n) == x
    ensures Rotl(Rotr(x, n), n) == x
  {
    RotateFits(n % 32);
    SwapTwice(x, Pow2(32 - n % 32), Pow2(n % 32));
    SwapTwice(x, Pow2(n % 32), Pow2(32 - n % 32));
  }

  // ---- multiplication by an odd constant can be undone ----

  lemma MulUndo(a: Word, c: Word, inv: Word, k: nat)
    requires c * inv == k * 0x1_0000_0000 + 1
    ensures Mul(Mul(a, c), inv) == a
  {
    var q, r := a * c / 0x1_0000_0000, Mul(a, c);
    DivMod(a * c, 0x1_0000_0000);
    calc {
      r * inv;
      (a * c - q * 0x1_0000_0000) * inv;
      { MulAssoc(a, c, inv); MulAssoc(q, 0x1_0000_0000, inv); }
      a * (k * 0x1_0000_0000 + 1) - q * (0x1_0000_0000 * inv);
      { MulAssoc(a, k, 0x1_0000_0000); MulAssoc(q, inv, 0x1_0000_0000); }
      (a * k - q * inv) * 0x1_0000_0000 + a;
    }
    ModMul(a * k - q * inv, 0x1_0000_0000, a);
  }

  lemma Fnv1aInjective(h: Word, d: Word, h': Word, d': Word)
    requires Fnv1a(h, d) == Fnv1a(h', d')
    ensures Xor(h, d) == Xor(h', d')
    ensures h == h' ==> d == d'
    ensures d == d' ==> h == h'
  {
    MulUndo(Xor(h, d), FNV_PRIME, 0x359C_449B, 0x0035_9C99);
    MulUndo(Xor(h', d'), FNV_PRIME, 0x359C_449B, 0x0035_9C99);
    XorXor(h, d);
    XorXor(h', d');
    XorComm(h, d);
    XorComm(h', d');
    XorXor(d, h);
    XorXor(d', h');
  }

  /** The FNV prime of 32 bits: 2^24 + 2^8 + 0x93. */
  lemma FnvPrime()
    ensures FNV_PRIME == Pow2(24) + Pow2(8) + 0x93
  {
    Pow2Table();
    Pow2Add(8, 16);
  }
}
