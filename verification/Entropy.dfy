/** No step of the hash forgets its inputs. */
module Entropy {
  import opened Words
  import opened Interpreter

  const INV33: Word := 0x3E0F_83E1

  function Sub(a: Word, b: Word): Word { (a + 0x1_0000_0000 - b) % 0x1_0000_0000 }

  lemma SubAdd(a: Word, b: Word)
    ensures Sub(Add(a, b), b) == a && Add(Sub(a, b), b) == a && Sub(Add(b, a), b) == a && Add(b, Sub(a, b)) == a
  {
    if a + b < 0x1_0000_0000 {
      assert Add(a, b) == a + b;
    } else {
      assert Add(a, b) == a + b - 0x1_0000_0000;
    }
    if a >= b {
      assert Sub(a, b) == a - b;
    } else {
      assert Sub(a, b) == a + 0x1_0000_0000 - b;
    }
  }

  /** The first merge argument, from the result and the second. */
  function UndoMix(m: Word, b: Word, r: Word): Word {
    match MergeSel(r)
    case 0 => Mul(Sub(m, b), INV33)
    case 1 => Xor(Mul(m, INV33), b)
    case 2 => Rotr(Xor(m, b), MergeRot(r))
    case _ => Rotl(Xor(m, b), MergeRot(r))
  }

  /** The second merge argument, from the result and the first. */
  function UndoData(m: Word, a: Word, r: Word): Word {
    match MergeSel(r)
    case 0 => Sub(m, Mul(a, 33))
    case 1 => Xor(Mul(m, INV33), a)
    case 2 => Xor(m, Rotl(a, MergeRot(r)))
    case _ => Xor(m, Rotr(a, MergeRot(r)))
  }

  lemma MulBy33(a: Word)
    ensures Mul(Mul(a, 33), INV33) == a && Mul(Mul(a, INV33), 33) == a
  {
    MulUndo(a, 33, INV33, 8);
    MulUndo(a, INV33, 33, 8);
  }

  /** For every selector, merging is a bijection of the first argument. */
  lemma MergeBijectiveInMix(a: Word, b: Word, r: Word)
    ensures UndoMix(MergeExec(a, b, r), b, r) == a
    ensures MergeExec(UndoMix(a, b, r), b, r) == a
  {
    hide Xor, Mul, Add, Sub, Rotl, Rotr;
    var k := MergeRot(r);
    SubAdd(Mul(a, 33), b);
    SubAdd(a, b);
    MulBy33(a);
    MulBy33(Sub(a, b));
    XorXor(a, b);
    MulBy33(Xor(a, b));
    XorXor(Mul(a, INV33), b);
    XorXor(Rotl(a, k), b);
    XorXor(Rotr(a, k), b);
    RotateBack(a, k);
    RotateBack(Xor(a, b), k);
  }

  /** For every selector, merging is a bijection of the second argument. */
  lemma MergeBijectiveInData(a: Word, b: Word, r: Word)
    ensures UndoData(MergeExec(a, b, r), a, r) == b
    ensures MergeExec(a, UndoData(b, a, r), r) == b
  {
    hide Xor, Mul, Add, Sub, Rotl, Rotr;
    var k := MergeRot(r);
    SubAdd(b, Mul(a, 33));
    MulBy33(Xor(a, b));
    XorUndo(a, b);
    XorUndo(a, Mul(b, INV33));
    MulBy33(b);
    XorUndo(Rotl(a, k), b);
    XorUndo(Rotr(a, k), b);
  }

  lemma XorUndo(a: Word, b: Word)
    ensures Xor(Xor(a, b), a) == b && Xor(a, Xor(b, a)) == b
  {
    hide Xor;
    XorComm(a, b);
    XorXor(b, a);
    XorComm(a, Xor(b, a));
  }

  // ---- the digest reductions ----

  function FoldFnv1a(h: Word, xs: seq<Word>): Word {
    if xs == [] then h else Fnv1a(FoldFnv1a(h, xs[..|xs| - 1]), xs[|xs| - 1])
  }

  /** The digest of a lane. */
  function LaneDigest(mix: Regs): Word { FoldFnv1a(FNV_OFFSET_BASIS, mix) }

  /** Word `j` of the mix hash reduces the digests of lanes `j` and `j + 8`. */
  function MixHash(lanes: Lanes): (d: seq<Word>)
    ensures |d| == 8
  {
    seq(8, (j: nat) requires j < 8 =>
      Fnv1a(Fnv1a(FNV_OFFSET_BASIS, LaneDigest(lanes[j])), LaneDigest(lanes[j + 8])))
  }

  lemma {:induction false} FoldInjective(h: Word, xs: seq<Word>, ys: seq<Word>, k: nat)
    requires k < |xs| == |ys| && xs[k] != ys[k]
    requires forall i :: 0 <= i < |xs| && i != k ==> xs[i] == ys[i]
    ensures FoldFnv1a(h, xs) != FoldFnv1a(h, ys)
  {
    hide Fnv1a;
    var n := |xs| - 1;
    var x, y := FoldFnv1a(h, xs[..n]), FoldFnv1a(h, ys[..n]);
    if k == n {
      assert xs[..n] == ys[..n];
    } else {
      FoldInjective(h, xs[..n], ys[..n], k);
    }
    if Fnv1a(x, xs[n]) == Fnv1a(y, ys[n]) {
      Fnv1aInjective(x, xs[n], y, ys[n]);
    }
  }

  /** End states that differ in one register of one lane have different mix hashes. */
  lemma MixHashSeesEveryRegister(a: Lanes, b: Lanes, lane: nat, reg: nat)
    requires lane < 16 && reg < 32 && a[lane][reg] != b[lane][reg]
    requires forall l, k :: 0 <= l < 16 && 0 <= k < 32 && (l != lane || k != reg) ==> a[l][k] == b[l][k]
    ensures forall j :: 0 <= j < 8 ==> (MixHash(a)[j] == MixHash(b)[j] <==> j != lane % 8)
  {
    hide Fnv1a, FoldFnv1a;
    FoldInjective(FNV_OFFSET_BASIS, a[lane], b[lane], reg);
    forall l | 0 <= l < 16 && l != lane
      ensures a[l] == b[l]
    {
      assert forall k :: 0 <= k < 32 ==> a[l][k] == b[l][k];
    }
    var j := lane % 8;
    var ha, hb := Fnv1a(FNV_OFFSET_BASIS, LaneDigest(a[j])), Fnv1a(FNV_OFFSET_BASIS, LaneDigest(b[j]));
    if ha == hb {
      Fnv1aInjective(FNV_OFFSET_BASIS, LaneDigest(a[j]), FNV_OFFSET_BASIS, LaneDigest(b[j]));
    }
    if MixHash(a)[j] == MixHash(b)[j] {
      Fnv1aInjective(ha, LaneDigest(a[j + 8]), hb, LaneDigest(b[j + 8]));
    }
  }
}
