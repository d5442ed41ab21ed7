/** The interpreter over the program IR: one `progPowLoop` across the 16 lanes. */
module Interpreter {
  import opened Words
  import opened ProgPow

  /** The 32 mix registers of a lane, and the four words it loads from the DAG. */
  type Regs = s: seq<Word> | |s| == 32 witness seq(32, _ => 0)
  type Row = s: seq<Word> | |s| == 4 witness seq(4, _ => 0)
  type Lanes = s: seq<Regs> | |s| == 16 witness seq<Regs>(16, _ => Zeros())
  /** The 4096 words of the DAG that serve as the cache. */
  type CacheWords = s: seq<Word> | |s| == 4096 witness seq(4096, _ => 0)
  type Positive = x: nat | 0 < x < 0x1_0000_0000 witness 1

  function Zeros(): Regs { seq(32, _ => 0) }

  function MathSel(r: Word): nat { r % 11 }
  function MergeSel(r: Word): nat { r % 4 }
  function MergeRot(r: Word): nat { r / 0x1_0000 % 31 + 1 }

  function MathExec(a: Word, b: Word, r: Word): Word {
    match MathSel(r)
    case 0 => Add(a, b)
    case 1 => Mul(a, b)
    case 2 => MulHi(a, b)
    case 3 => MinU32(a, b)
    case 4 => Rotl(a, b % 32)
    case 5 => Rotr(a, b % 32)
    case 6 => And(a, b)
    case 7 => Or(a, b)
    case 8 => Xor(a, b)
    case 9 => Add(Clz(a), Clz(b))
    case _ => Add(PopCount(a), PopCount(b))
  }

  function MergeExec(a: Word, b: Word, r: Word): Word {
    match MergeSel(r)
    case 0 => Add(Mul(a, 33), b)
    case 1 => Mul(Xor(a, b), 33)
    case 2 => Xor(Rotl(a, MergeRot(r)), b)
    case _ => Xor(Rotr(a, MergeRot(r)), b)
  }

  /** The selectors: eleven operations in turn, the low two digits, and a rotation from 1 to 31 by the
      upper half. */
  lemma Selectors(r: Word)
    ensures exists q :: r == 11 * q + MathSel(r) && 0 <= MathSel(r) < 11
    ensures MergeSel(r) == And(r, 3) && 1 <= MergeRot(r) <= 31
    ensures exists q :: Shr(r, 16) == 31 * q + (MergeRot(r) - 1)
  {
    assert Bits.Pow2(2) == 4 && Bits.Pow2(16) == 0x1_0000 by { Bits.Pow2Table(); }
    Bits.AndMask(r, 2, 32);
    hide Bits.Bitwise, Bits.Pow2;
    assert r == 11 * (r / 11) + MathSel(r);
    var u := Shr(r, 16);
    assert u == 31 * (u / 31) + (MergeRot(r) - 1);
  }

  /** One operation on one lane; `dd` is the row the lane loaded. */
  function RunOp(op: Op, mix: Regs, dd: Row, cdag: CacheWords): Regs {
    match op
    case Global => mix
    case Cache(src, dst, r) => mix[dst := MergeExec(mix[dst], cdag[mix[src] % 4096], r)]
    case Math(s1, s2, dst, r1, r2) => mix[dst := MergeExec(mix[dst], MathExec(mix[s1], mix[s2], r1), r2)]
    case DagMerge(dst, i, r) => mix[dst := MergeExec(mix[dst], dd[i], r)]
  }

  function RunOps(ops: seq<Op>, mix: Regs, dd: Row, cdag: CacheWords): Regs {
    if ops == [] then mix
    else
      var last := |ops| - 1;
      RunOp(ops[last], RunOps(ops[..last], mix, dd, cdag), dd, cdag)
  }

  /** The DAG row a lane reads in iteration `loop`, truncated to the source's u32. */
  function RowIndex(mix0: Word, lane: nat, loop: nat, dagElements: Positive): Word
    requires lane < 16 && loop < 0x1_0000_0000
  {
    Low32(mix0 % dagElements * 16 + Xor(lane, loop) % 16)
  }

  /** One iteration over all lanes: lane `loop mod 16` picks the rows. */
  function RunLoop(ops: seq<Op>, loop: nat, lanes: Lanes, cdag: CacheWords, rows: Word -> Row, dagElements: Positive): Lanes
    requires loop < 0x1_0000_0000
  {
    var mix0 := lanes[loop % 16][0];
    var after := seq<Regs>(16, (lane: nat) requires lane < 16 =>
      RunOps(ops, lanes[lane], rows(RowIndex(mix0, lane, loop, dagElements)), cdag));
    after
  }

  function RunLoops(ops: seq<Op>, n: nat, lanes: Lanes, cdag: CacheWords, rows: Word -> Row, dagElements: Positive): Lanes
    requires n <= 64
  {
    if n == 0 then lanes else RunLoop(ops, n - 1, RunLoops(ops, n - 1, lanes, cdag, rows, dagElements), cdag, rows, dagElements)
  }
}
