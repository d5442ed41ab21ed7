/** The KISS99 generator of ProgPoW: the source's mutable generator and its state function. */
module Kiss99 {
  import opened Bits
  import opened Words

  datatype Kiss = Kiss(z: Word, w: Word, jsr: Word, jcong: Word) {
    function Next(): Kiss {
      var j1 := Xor(jsr, Shl(jsr, 17));
      var j2 := Xor(j1, Shr(j1, 13));
      Kiss(Add(Mul(36969, And(z, 0xFFFF)), Shr(z, 16)),
           Add(Mul(18000, And(w, 0xFFFF)), Shr(w, 16)),
           Xor(j2, Shl(j2, 5)),
           Add(Mul(69069, jcong), 1234567))
    }

    /** The number produced on reaching this state. */
    function Output(): Word { Add(Xor(Add(Shl(z, 16), w), jcong), jsr) }
  }

  function StateAt(s: Kiss, n: nat): Kiss { if n == 0 then s else StateAt(s, n - 1).Next() }

  /** The n-th number drawn from state `s`, counting from 0. */
  function Draw(s: Kiss, n: nat): Word { StateAt(s, n + 1).Output() }

  /** The four FNV-1a values that seed the generator. */
  function Seeded(a: Word, b: Word, c: Word, d: Word): Kiss {
    var z := Fnv1a(FNV_OFFSET_BASIS, a);
    var w := Fnv1a(z, b);
    var jsr := Fnv1a(w, c);
    Kiss(z, w, jsr, Fnv1a(jsr, d))
  }

  /** Different words seed different states. */
  lemma SeedsTell(a: Word, b: Word, c: Word, d: Word, a': Word, b': Word, c': Word, d': Word)
    requires Seeded(a, b, c, d) == Seeded(a', b', c', d')
    ensures a == a' && b == b' && c == c' && d == d'
  {
    hide Fnv1a;
    var k := Seeded(a, b, c, d);
    Fnv1aInjective(FNV_OFFSET_BASIS, a, FNV_OFFSET_BASIS, a');
    Fnv1aInjective(k.z, b, k.z, b');
    Fnv1aInjective(k.w, c, k.w, c');
    Fnv1aInjective(k.jsr, d, k.jsr, d');
  }

  // ---- what a step does ----

  /** `z` and `w` are multiply-with-carry generators: a step divides by 2^16 modulo `m * 2^16 - 1`. */
  lemma MultiplyWithCarry(x: Word, m: Word)
    requires m in {36969, 18000}
    ensures 0x1_0000 * Add(Mul(m, And(x, 0xFFFF)), Shr(x, 16)) == x + x % 0x1_0000 * (m * 0x1_0000 - 1)
  {
    HalvesOf(x);
    hide And, Shr;
    var lo, hi := x % 0x1_0000, x / 0x1_0000;
    assert x == 0x1_0000 * hi + lo;
  }

  lemma HalvesOf(x: Word)
    ensures And(x, 0xFFFF) == x % 0x1_0000 && Shr(x, 16) == x / 0x1_0000
  {
    assert Pow2(16) == 0x1_0000 by { Pow2Table(); }
    AndMask(x, 16, 32);
    hide Bitwise, Pow2;
  }

  /** The step of `z` and of `w`, and their multipliers. */
  lemma CarrySteps(k: Kiss)
    ensures 0x1_0000 * k.Next().z == k.z + k.z % 0x1_0000 * (36969 * 0x1_0000 - 1)
    ensures 0x1_0000 * k.Next().w == k.w + k.w % 0x1_0000 * (18000 * 0x1_0000 - 1)
  {
    MultiplyWithCarry(k.z, 36969);
    MultiplyWithCarry(k.w, 18000);
    hide And, Shr, Shl, Xor, Add, Mul;
  }

  /** `jsr` is a shift register of the triple 17, 13, 5: digit by digit, each of its three steps adds the
      digit that many places away. */
  lemma ShiftRegister(k: Kiss, i: nat)
    requires i < 32
    ensures var a := Xor(k.jsr, Shl(k.jsr, 17));
            var b := Xor(a, Shr(a, 13));
            && Bit(a, i) == (Bit(k.jsr, i) != (i >= 17 && Bit(k.jsr, i - 17)))
            && Bit(b, i) == (Bit(a, i) != (i + 13 < 32 && Bit(a, i + 13)))
            && Bit(k.Next().jsr, i) == (Bit(b, i) != (i >= 5 && Bit(b, i - 5)))
  {
    hide Bit, Xor, Shl, Shr;
    var a := Xor(k.jsr, Shl(k.jsr, 17));
    var b := Xor(a, Shr(a, 13));
    BitXor(k.jsr, Shl(k.jsr, 17), i);
    BitShl(k.jsr, 17, i);
    BitXor(a, Shr(a, 13), i);
    BitShr(a, 13, i);
    BitXor(b, Shl(b, 5), i);
    BitShl(b, 5, i);
  }

  const INV_69069: Word := 0xA5E2_A705

  /** `jcong` is a congruential generator under the conditions of full period, its increment odd and its
      multiplier one more than a multiple of four; a step can be undone. */
  lemma Congruential(k: Kiss)
    ensures 1234567 % 2 == 1 && 69069 % 4 == 1
    ensures Mul((k.Next().jcong + 0x1_0000_0000 - 1234567) % 0x1_0000_0000, INV_69069) == k.jcong
  {
    MulUndo(k.jcong, 69069, INV_69069, 44756);
    Increment(Mul(69069, k.jcong));
    hide Xor, Shl, Shr, And;
  }

  lemma Increment(x: Word)
    ensures (Add(x, 1234567) + 0x1_0000_0000 - 1234567) % 0x1_0000_0000 == x
  {
  }

  class Generator {
    var z: Word
    var w: Word
    var jsr: Word
    var jcong: Word

    function Current(): Kiss
      reads this
    {
      Kiss(z, w, jsr, jcong)
    }

    constructor (z: Word, w: Word, jsr: Word, jcong: Word)
      ensures Current() == Kiss(z, w, jsr, jcong)
    {
      this.z, this.w, this.jsr, this.jcong := z, w, jsr, jcong;
    }

    method NextU32() returns (r: Word)
      modifies this
      ensures Current() == old(Current()).Next()
      ensures r == old(Current()).Next().Output()
    {
      hide Xor, And, Shl, Shr, Mul, Add;
      z := Add(Mul(36969, And(z, 0xFFFF)), Shr(z, 16));
      w := Add(Mul(18000, And(w, 0xFFFF)), Shr(w, 16));
      var mwc := Add(Shl(z, 16), w);
      jsr := Xor(jsr, Shl(jsr, 17));
      jsr := Xor(jsr, Shr(jsr, 13));
      jsr := Xor(jsr, Shl(jsr, 5));
      jcong := Add(Mul(69069, jcong), 1234567);
      r := Add(Xor(mwc, jcong), jsr);
    }
  }
}
