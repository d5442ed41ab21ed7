/** What the 32-bit operations compute, apart from how they are written. */
module WordLaws {
  import opened Arith
  import opened Bits
  import opened Words

  // ---- counting digits ----

  /** The places of the set digits among the low `k`. */
  function SetDigits(x: nat, k: nat): set<nat> { set i | 0 <= i < k && Bit(x, i) }

  lemma {:induction false} OnesFromTop(x: nat, k: nat)
    requires k > 0
    ensures Ones(x, k) == Ones(x, k - 1) + if Bit(x, k - 1) then 1 else 0
  {
    if k > 1 {
      OnesFromTop(x / 2, k - 1);
    }
  }

  lemma {:induction false} OnesCount(x: nat, k: nat)
    ensures Ones(x, k) == |SetDigits(x, k)|
  {
    hide Bit;
    if k == 0 {
      assert SetDigits(x, 0) == {};
    } else {
      OnesFromTop(x, k);
      OnesCount(x, k - 1);
      assert SetDigits(x, k) == SetDigits(x, k - 1) + (if Bit(x, k - 1) then {k - 1} else {});
    }
  }

  /** `count_ones` is the number of set digits. */
  lemma PopCountCounts(x: Word)
    ensures PopCount(x) == |SetDigits(x, 32)|
  {
    OnesCount(x, 32);
  }

  lemma {:induction false} OnesComplement(x: nat, y: nat, k: nat)
    requires forall i :: 0 <= i < k ==> Bit(y, i) != Bit(x, i)
    ensures Ones(x, k) + Ones(y, k) == k
  {
    if k > 0 {
      hide Bit;
      OnesFromTop(x, k);
      OnesFromTop(y, k);
      OnesComplement(x, y, k - 1);
    }
  }

  /** A word and its complement share out the 32 digits. */
  lemma PopCountComplement(x: Word)
    ensures PopCount(x) + PopCount(Not(x)) == 32 && PopCount(0) == 0 && PopCount(0xFFFF_FFFF) == 32
  {
    Complements(x);
    Complements(0);
    OnesComplement(x, Not(x), 32);
    OnesComplement(0, Not(0), 32);
    forall i | 0 <= i < 32
      ensures !Bit(0, i)
    {
      HighBit(0, 0, i);
    }
    OnesCount(0, 32);
    hide Ones, Bit;
    assert SetDigits(0, 32) == {};
    assert Not(0) == 0xFFFF_FFFF;
  }

  lemma Complements(x: Word)
    ensures forall i :: 0 <= i < 32 ==> Bit(Not(x), i) != Bit(x, i)
  {
    hide Bit, Not;
    forall i | 0 <= i < 32
      ensures Bit(Not(x), i) != Bit(x, i)
    {
      BitNot(x, i);
    }
  }

  lemma {:induction false} ZerosAbove(x: nat, k: nat)
    ensures LeadingZeros(x, k) <= k
    ensures forall i :: k - LeadingZeros(x, k) <= i < k ==> !Bit(x, i)
    ensures LeadingZeros(x, k) < k ==> Bit(x, k - 1 - LeadingZeros(x, k))
  {
    hide Bit;
    if k > 0 && !Bit(x, k - 1) {
      ZerosAbove(x, k - 1);
    }
  }

  /** `leading_zeros` is the number of clear digits above the highest set one. */
  lemma ClzPlace(x: Word)
    ensures Clz(x) <= 32 && forall i :: 32 - Clz(x) <= i < 32 ==> !Bit(x, i)
    ensures Clz(x) < 32 ==> Bit(x, 31 - Clz(x))
  {
    ZerosAbove(x, 32);
    hide Bit, LeadingZeros;
  }

  // ---- products and minima ----

  /** `mul_hi` and the wrapping product are the two words of the product. */
  lemma ProductWords(a: Word, b: Word)
    ensures a * b == 0x1_0000_0000 * MulHi(a, b) + Mul(a, b)
  {
    DivMod(a * b, 0x1_0000_0000);
  }

  /** The minimum is the one of the two that is at most both. */
  lemma MinIsLeast(a: Word, b: Word)
    ensures MinU32(a, b) <= a && MinU32(a, b) <= b && MinU32(a, b) in {a, b}
  {
  }

  // ---- hashing steps ----

  const INV_PRIME: Word := 0x359C_449B

  lemma TimesPrime(a: Word)
    ensures Mul(Mul(a, FNV_PRIME), INV_PRIME) == a
  {
    MulUndo(a, FNV_PRIME, INV_PRIME, 0x0035_9C99);
  }

  /** Both orders of the FNV step multiply by the prime and exclusive-or, so each argument comes back. */
  lemma FnvUndone(a: Word, b: Word)
    ensures Mul(Xor(Fnv(a, b), b), INV_PRIME) == a
    ensures Xor(Fnv(a, b), Mul(a, FNV_PRIME)) == b
    ensures Xor(Mul(Fnv1a(a, b), INV_PRIME), b) == a
    ensures Xor(Mul(Fnv1a(a, b), INV_PRIME), a) == b
  {
    TimesPrime(a);
    TimesPrime(Xor(a, b));
    hide Xor, Mul;
    var p := Mul(a, FNV_PRIME);
    XorXor(p, b);
    XorComm(p, b);
    XorXor(b, p);
    XorXor(a, b);
    XorComm(a, b);
    XorXor(b, a);
  }
}
