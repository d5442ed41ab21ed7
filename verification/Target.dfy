/** Difficulty to target: the source's bitwise long division of 2^256, and its top 64 bits. */
module Target {
  import opened Arith
  import opened Bits
  import opened Words

  type U128 = x: nat | x < 0x1_0000_0000_0000_0000_0000_0000_0000_0000
  /** A 256-bit number, most significant byte first. */
  type Bytes32 = s: seq<Byte> | |s| == 32 witness seq(32, _ => 0)

  const HALF: nat := 0x8000_0000_0000_0000_0000_0000_0000_0000

  function BigEndian(s: seq<Byte>): nat {
    if s == [] then 0 else 0x100 * BigEndian(s[..|s| - 1]) + s[|s| - 1]
  }

  /** `r << 1` in a 128-bit register: the top digit is lost. */
  function Shl1(r: U128): U128 { r * 2 % 0x1_0000_0000_0000_0000_0000_0000_0000_0000 }

  /** `q[31 - i / 8] |= 1 << (i % 8)`. */
  function SetBit(q: Bytes32, i: nat): Bytes32
    requires i < 256
  {
    Pow2Table();
    q[31 - i / 8 := Bitwise(OrOp, q[31 - i / 8], Pow2(i % 8), 8)]
  }

  // ---- setting a clear digit adds a power of two ----

  /** All digits below `i` are clear. */
  predicate LowClear(q: Bytes32, i: nat)
    requires i <= 256
  {
    && (forall k :: 0 <= k < 32 && 31 - k < i / 8 ==> q[k] == 0)
    && (i < 256 ==> q[31 - i / 8] % Pow2(i % 8) == 0)
  }

  lemma {:induction false} BigEndianUpdate(s: seq<Byte>, p: nat, x: Byte)
    requires p < |s|
    ensures BigEndian(s[p := x]) == BigEndian(s) + (x - s[p]) * Pow2(8 * (|s| - 1 - p))
  {
    var last := |s| - 1;
    if p < last {
      BigEndianUpdate(s[..last], p, x);
      assert s[p := x][..last] == s[..last][p := x];
      NextByte(8 * (last - 1 - p));
      ScaleBy256(x - s[p], Pow2(8 * (last - 1 - p)));
    } else {
      assert s[p := x][..last] == s[..last];
    }
  }

  lemma NextByte(n: nat)
    ensures Pow2(n + 8) == 0x100 * Pow2(n)
  {
    assert Pow2(8) == 0x100 by { Pow2Table(); }
    Pow2Add(8, n);
  }

  lemma ScaleBy256(a: int, b: int)
    ensures a * (0x100 * b) == 0x100 * (a * b)
  {
  }

  lemma OddMultiple(v: nat, p: nat, h: nat)
    requires p > 0 && v == 2 * p * h
    ensures (v + p) % p == 0 && v % p == 0
  {
    var k := 2 * h;
    MulAssoc(2, p, h);
    MulAssoc(p, 2, h);
    assert v == p * k;
    assert v + p == p * (k + 1);
    DivUnique(v + p, p, k + 1, 0);
    DivUnique(v, p, k, 0);
  }

  lemma OrAdds(v: Byte, j: nat)
    requires j < 8 && v % Pow2(j + 1) == 0
    ensures v + Pow2(j) < 0x100
    ensures Bitwise(OrOp, v, Pow2(j), 8) == v + Pow2(j)
    ensures (v + Pow2(j)) % Pow2(j) == 0 && v % Pow2(j) == 0
  {
    var p, h := Pow2(j + 1), v / Pow2(j + 1);
    assert p == 2 * Pow2(j);
    DivMod(v, p);
    MulComm(p, h);
    assert Pow2(8) == 0x100 by { Pow2Table(); }
    Pow2Add(7 - j, j + 1);
    hide Pow2, Bitwise;
    OddMultiple(v, Pow2(j), h);
    DivBound(v, p, Pow2(7 - j));
    TwoDigits(h, Pow2(j), Pow2(7 - j), p);
    OrDisjoint(h, Pow2(j), j + 1, 8);
  }

  lemma SetBitAdds(q: Bytes32, i: nat)
    requires 0 < i <= 256 && LowClear(q, i)
    ensures LowClear(q, i - 1)
    ensures LowClear(SetBit(q, i - 1), i - 1)
    ensures BigEndian(SetBit(q, i - 1)) == BigEndian(q) + Pow2(i - 1)
  {
    hide Pow2, Bitwise, BigEndian, LowClear, SetBit;
    var x := FreshByte(q, i);
    var k, j := (i - 1) / 8, (i - 1) % 8;
    assert j + 8 * k == i - 1;
    AddedPower(q, k, j, x);
  }

  /** The byte that holds digit `i - 1`, with that digit set. */
  lemma FreshByte(q: Bytes32, i: nat) returns (x: Byte)
    requires 0 < i <= 256 && LowClear(q, i)
    ensures x == q[31 - (i - 1) / 8] + Pow2((i - 1) % 8)
    ensures SetBit(q, i - 1) == q[31 - (i - 1) / 8 := x] && LowClear(q, i - 1) && LowClear(SetBit(q, i - 1), i - 1)
  {
    hide Pow2, Bitwise, LowClear, SetBit;
    var v, j := q[31 - (i - 1) / 8], (i - 1) % 8;
    ClearByte(q, i);
    OrAdds(v, j);
    x := v + Pow2(j);
    NewByte(q, i, x);
  }

  lemma NewByte(q: Bytes32, i: nat, x: Byte)
    requires 0 < i <= 256 && LowClear(q, i)
    requires Bitwise(OrOp, q[31 - (i - 1) / 8], Pow2((i - 1) % 8), 8) == x
    requires x % Pow2((i - 1) % 8) == 0 && q[31 - (i - 1) / 8] % Pow2((i - 1) % 8) == 0
    ensures SetBit(q, i - 1) == q[31 - (i - 1) / 8 := x] && LowClear(q, i - 1) && LowClear(SetBit(q, i - 1), i - 1)
  {
    hide Pow2, Bitwise, LowClear;
    SetBitIs(q, i - 1, x);
    ClearBelow(q, i, x);
  }

  /** A byte larger by 2^j makes the number larger by that at its place. */
  lemma AddedPower(q: Bytes32, b: nat, j: nat, x: Byte)
    requires b < 32 && x == q[31 - b] + Pow2(j)
    ensures BigEndian(q[31 - b := x]) == BigEndian(q) + Pow2(j + 8 * b)
  {
    hide Pow2, BigEndian;
    BigEndianUpdate(q, 31 - b, x);
    Pow2Add(j, 8 * b);
    assert 8 * (32 - 1 - (31 - b)) == 8 * b;
    assert x - q[31 - b] == Pow2(j);
  }

  lemma SetBitIs(q: Bytes32, i: nat, x: Byte)
    requires i < 256 && Bitwise(OrOp, q[31 - i / 8], Pow2(i % 8), 8) == x
    ensures SetBit(q, i) == q[31 - i / 8 := x]
  {
    hide Pow2, Bitwise;
  }

  lemma ClearBelow(q: Bytes32, i: nat, x: Byte)
    requires 0 < i <= 256 && LowClear(q, i)
    requires x % Pow2((i - 1) % 8) == 0 && q[31 - (i - 1) / 8] % Pow2((i - 1) % 8) == 0
    ensures LowClear(q, i - 1) && LowClear(q[31 - (i - 1) / 8 := x], i - 1)
  {
    hide Pow2;
  }

  lemma ClearByte(q: Bytes32, i: nat)
    requires 0 < i <= 256 && LowClear(q, i)
    ensures q[31 - (i - 1) / 8] % Pow2((i - 1) % 8 + 1) == 0
  {
    hide Pow2;
    if i % 8 == 0 {
      ZeroMod(Pow2(8));
    }
  }

  lemma ZeroMod(p: nat)
    requires p > 0
    ensures 0 % p == 0
  {
  }

  // ---- the division ----

  /** One step of schoolbook division: double the dividend. */
  lemma DoubleDividend(n: nat, d: nat)
    requires d > 0
    ensures 2 * n / d == 2 * (n / d) + (if 2 * (n % d) >= d then 1 else 0)
    ensures 2 * n % d == 2 * (n % d) - (if 2 * (n % d) >= d then d else 0)
  {
    var q, r := n / d, n % d;
    DivMod(n, d);
    if 2 * r >= d {
      assert 2 * n == d * (2 * q + 1) + (2 * r - d);
      DivUnique(2 * n, d, 2 * q + 1, 2 * r - d);
    } else {
      assert 2 * n == d * (2 * q) + 2 * r;
      DivUnique(2 * n, d, 2 * q, 2 * r);
    }
  }

  lemma Pow2At127()
    ensures Pow2(127) == HALF && Pow2(128) == 2 * HALF
  {
    Pow2Table();
    Pow2Add(64, 64);
  }

  /** What remains of the dividend after its top `k + 1` digits, in the 128-bit register. */
  function Remainder(d: U128, k: nat): nat
    requires d > 0
  {
    if d <= HALF then Pow2(k) % d else if k < 128 then Pow2(k) else 0
  }

  function Quotient(d: U128, k: nat): nat
    requires d > 0
  {
    if d <= HALF then Pow2(k) / d else 0
  }

  lemma StepOfDivision(d: U128, k: nat, r: U128)
    requires d >= 2 && r == Remainder(d, k)
    ensures r < d
    ensures Remainder(d, k + 1) == if Shl1(r) >= d then Shl1(r) - d else Shl1(r)
    ensures Quotient(d, k + 1) == 2 * Quotient(d, k) + (if Shl1(r) >= d then 1 else 0)
  {
    Pow2At127();
    if d <= HALF {
      SmallDivisorStep(d, k);
    } else {
      LargeDivisorStep(d, k);
    }
    hide Pow2, Shl1;
  }

  lemma LargeDivisorStep(d: U128, k: nat)
    requires d > HALF
    ensures var r := if k < 128 then Pow2(k) else 0;
            && r < d && r < 2 * HALF
            && (if k + 1 < 128 then Pow2(k + 1) else 0) == if Shl1(r) >= d then Shl1(r) - d else Shl1(r)
  {
    Pow2At127();
    if k < 127 {
      Pow2Mono(k + 1, 127);
      DoubledPower(k);
    }
    hide Pow2;
    var r := if k < 128 then Pow2(k) else 0;
    if k == 127 {
      Shl1Half();
    } else {
      Shl1Small(r);
    }
  }

  lemma DoubledPower(k: nat)
    ensures Pow2(k + 1) == 2 * Pow2(k)
  {
  }

  lemma Shl1Half()
    ensures Shl1(HALF) == 0
  {
  }

  lemma SmallDivisorStep(d: U128, k: nat)
    requires 2 <= d <= HALF
    ensures 0 <= Pow2(k) % d < d && Shl1(Pow2(k) % d) == 2 * (Pow2(k) % d)
    ensures Pow2(k + 1) % d == 2 * (Pow2(k) % d) - (if 2 * (Pow2(k) % d) >= d then d else 0)
    ensures Pow2(k + 1) / d == 2 * (Pow2(k) / d) + (if 2 * (Pow2(k) % d) >= d then 1 else 0)
  {
    assert Pow2(k + 1) == 2 * Pow2(k);
    hide Pow2, Shl1;
    var n := Pow2(k);
    DivMod(n, d);
    DoubleDividend(n, d);
    Shl1Small(n % d);
  }

  lemma Shl1Small(r: U128)
    requires r < HALF
    ensures Shl1(r) == 2 * r
  {
  }

  /** The 256-step loop divides exactly while the remainder register suffices, and yields zero otherwise. */
  method Div2Pow256By(d: U128) returns (q: Bytes32)
    requires d >= 2
    ensures BigEndian(q) == if d <= HALF then Pow2(256) / d else 0
  {
    hide Remainder, Quotient, Shl1, SetBit, LowClear, BigEndian, Pow2;
    q := seq(32, _ => 0);
    StartOfDivision(d, q);
    var r: U128 := 0;
    r := Shl1(r) + 1;
    // Bit 256 needs no subtraction: 1 >= d would need d == 1.
    var i := 256;
    while i > 0
      invariant 0 <= i <= 256
      invariant r == Remainder(d, 256 - i)
      invariant LowClear(q, i)
      invariant BigEndian(q) == Quotient(d, 256 - i) * Pow2(i)
    {
      StepOfDivision(d, 256 - i, r);
      SetBitAdds(q, i);
      DoubleScale(Quotient(d, 256 - i), i);
      i := i - 1;
      r := Shl1(r);
      if r >= d {
        r := r - d;
        q := SetBit(q, i);
      }
    }
    EndOfDivision(d);
  }

  lemma DoubleScale(a: nat, i: nat)
    requires i > 0
    ensures a * Pow2(i) == (2 * a) * Pow2(i - 1)
    ensures a * Pow2(i) + Pow2(i - 1) == (2 * a + 1) * Pow2(i - 1)
  {
  }

  lemma StartOfDivision(d: U128, q: Bytes32)
    requires d >= 2 && forall k :: 0 <= k < 32 ==> q[k] == 0
    ensures Shl1(0) + 1 < d && Remainder(d, 0) == Shl1(0) + 1
    ensures LowClear(q, 256) && BigEndian(q) == Quotient(d, 0) * Pow2(256)
  {
    ZeroBytes(q);
    assert Quotient(d, 0) == 0;
  }

  lemma {:induction false} ZeroBytes(s: seq<Byte>)
    requires forall k :: 0 <= k < |s| ==> s[k] == 0
    ensures BigEndian(s) == 0
  {
    if s != [] {
      ZeroBytes(s[..|s| - 1]);
    }
  }

  lemma EndOfDivision(d: U128)
    requires d >= 2
    ensures Quotient(d, 256) * Pow2(0) == if d <= HALF then Pow2(256) / d else 0
  {
  }

  /** The loop meets `floor(2^256 / d)` exactly for the difficulties up to 2^127. */
  lemma DivisionExactIff(d: U128, q: nat)
    requires d >= 2 && q == if d <= HALF then Pow2(256) / d else 0
    ensures q == Pow2(256) / d <==> d <= HALF
  {
    Pow2At127();
    Pow2Add(128, 128);
    var p := Pow2(128);
    DivMod(Pow2(256), d);
    if Pow2(256) / d == 0 {
      MulMono(1, p, p);
    }
  }

  method DifficultyToTarget(d: U128) returns (target: Bytes32)
    ensures BigEndian(target) == if d <= 1 then Pow2(256) - 1 else if d <= HALF then Pow2(256) / d else 0
  {
    if d <= 1 {
      target := seq(32, _ => 0xFF);
      AllOnes(target);
    } else {
      target := Div2Pow256By(d);
    }
  }

  lemma {:induction false} AllOnes(s: seq<Byte>)
    requires forall k :: 0 <= k < |s| ==> s[k] == 0xFF
    ensures BigEndian(s) == Pow2(8 * |s|) - 1
  {
    if s != [] {
      AllOnes(s[..|s| - 1]);
      Pow2Table();
      Pow2Add(8, 8 * (|s| - 1));
    }
  }

  // ---- the top 64 bits ----

  function Boundary64(target: Bytes32): nat { BigEndian(target[..8]) }

  lemma {:induction false} BigEndianBound(s: seq<Byte>)
    ensures BigEndian(s) < Pow2(8 * |s|)
  {
    if s != [] {
      BigEndianBound(s[..|s| - 1]);
      Pow2Table();
      Pow2Add(8, 8 * (|s| - 1));
    }
  }

  lemma {:induction false} BigEndianConcat(a: seq<Byte>, b: seq<Byte>)
    ensures BigEndian(a + b) == BigEndian(a) * Pow2(8 * |b|) + BigEndian(b)
  {
    if b == [] {
      assert a + b == a;
    } else {
      var last := |b| - 1;
      assert (a + b)[..|a| + last] == a + b[..last];
      BigEndianConcat(a, b[..last]);
      assert Pow2(8) == 0x100 by { Pow2Table(); }
      Pow2Add(8, 8 * last);
      ScaleBy256(BigEndian(a), Pow2(8 * last));
      hide Pow2;
    }
  }

  /** The eight leading bytes are the quotient by 2^192. */
  lemma Boundary64IsTop(target: Bytes32)
    ensures Boundary64(target) == BigEndian(target) / Pow2(192) < Pow2(64)
  {
    hide BigEndian, Pow2;
    BigEndianConcat(target[..8], target[8..]);
    assert target[..8] + target[8..] == target;
    BigEndianBound(target[8..]);
    BigEndianBound(target[..8]);
    MulComm(BigEndian(target[..8]), Pow2(192));
    DivUnique(BigEndian(target), Pow2(192), BigEndian(target[..8]), BigEndian(target[8..]));
  }

  lemma ScaleDivision(n: nat, d: nat, m: nat, q: nat, rm: nat, rest: nat, tail: nat)
    requires n * m == d * q * m + rm && rm == d * rest + tail
    ensures n * m == d * (q * m + rest) + tail
  {
    MulAssoc(d, q, m);
    DistAdd(d, q * m, rest);
  }

  lemma NestedDivision(n: nat, d: nat, m: nat)
    requires d > 0 && m > 0
    ensures (n * m / d) / m == n / d
  {
    var q, r := n / d, n % d;
    DivMod(n, d);
    DistAdd(m, d * q, r);
    MulMono(0, r, m);
    var rm: nat := r * m;
    MulMono(r + 1, d, m);
    DistAdd(m, r, 1);
    DivMod(rm, d);
    DivBound(rm, d, m);
    ScaleDivision(n, d, m, q, rm, rm / d, rm % d);
    QuotientOfScaled(n * m, d, m, q, rm / d, rm % d);
  }

  lemma QuotientOfScaled(nm: nat, d: nat, m: nat, q: nat, rest: nat, tail: nat)
    requires m > 0 && tail < d && rest < m && nm == d * (q * m + rest) + tail
    ensures (nm / d) / m == q
  {
    DivUnique(nm, d, q * m + rest, tail);
    MulComm(q, m);
    DivUnique(q * m + rest, m, q, rest);
  }

  /** The GPU's compare value is `floor(2^64 / d)` for every difficulty above 1, also where the target
      itself is cut to zero, and the largest value for the others. */
  lemma BoundaryOfDifficulty(d: U128, target: Bytes32)
    requires BigEndian(target) == if d <= 1 then Pow2(256) - 1 else if d <= HALF then Pow2(256) / d else 0
    ensures Boundary64(target) == if d <= 1 then Pow2(64) - 1 else Pow2(64) / d
  {
    hide BigEndian, Pow2;
    Boundary64IsTop(target);
    Pow2Add(64, 192);
    var p, m := Pow2(64), Pow2(192);
    if d <= 1 {
      MulComm(p - 1, m);
      DivUnique(p * m - 1, m, p - 1, m - 1);
    } else if d <= HALF {
      NestedDivision(p, d, m);
    } else {
      Pow2At127();
      Pow2Mono(64, 127);
      DivUnique(p, d, 0, p);
      DivUnique(0, m, 0, 0);
    }
  }
}
