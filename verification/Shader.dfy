/** The search shader: 32 lanes, two groups of 16 that hash 16 nonces each, one after the other. */
module Shader {
  import opened Arith
  import opened Bits
  import opened Words
  import opened Interpreter
  import opened Entropy
  import opened GlslText
  import opened GlslExec
  import opened Hash
  import opened Simt
  import Keccak

  // ---- byte swap ----

  function GlslBswap(x: Word): Word {
    Or(Or(Or(And(Shr(x, 24), 0xFF), And(Shr(x, 8), 0xFF00)), And(Shl(x, 8), 0xFF_0000)), And(Shl(x, 24), 0xFF00_0000))
  }

  /** A run of set digits. */
  lemma MaskBit(n: nat, s: nat, i: nat)
    requires n >= 1
    ensures Bit((Pow2(n) - 1) * Pow2(s), i) == (s <= i < s + n)
  {
    BitOfShiftLeft(Pow2(n) - 1, s, i);
    if i >= s {
      OnesBit(n, i - s);
    }
  }

  lemma {:induction false} OnesBit(n: nat, i: nat)
    ensures Bit(Pow2(n) - 1, i) == (i < n)
  {
    if n == 0 {
      HighBit(0, 0, i);
    } else if i > 0 {
      assert (Pow2(n) - 1) / 2 == Pow2(n - 1) - 1;
      OnesBit(n - 1, i - 1);
    }
  }

  lemma Masks(i: nat)
    requires i < 32
    ensures Bit(0xFF, i) == (i < 8) && Bit(0xFF00, i) == (8 <= i < 16)
    ensures Bit(0xFF_0000, i) == (16 <= i < 24) && Bit(0xFF00_0000, i) == (24 <= i < 32)
  {
    Pow2Table();
    Pow2Add(8, 16);
    MaskBit(8, 0, i);
    MaskBit(8, 8, i);
    MaskBit(8, 16, i);
    MaskBit(8, 24, i);
  }

  lemma BitBswap(x: Word, i: nat)
    requires i < 32
    ensures Bit(GlslBswap(x), i) == Bit(x, if i < 8 then i + 24 else if i < 16 then i + 8 else if i < 24 then i - 8 else i - 24)
  {
    hide Bit, And, Or, Shl, Shr;
    var a, b, c, d := And(Shr(x, 24), 0xFF), And(Shr(x, 8), 0xFF00), And(Shl(x, 8), 0xFF_0000), And(Shl(x, 24), 0xFF00_0000);
    BitOr(Or(Or(a, b), c), d, i);
    BitOr(Or(a, b), c, i);
    BitOr(a, b, i);
    BitAnd(Shr(x, 24), 0xFF, i);
    BitAnd(Shr(x, 8), 0xFF00, i);
    BitAnd(Shl(x, 8), 0xFF_0000, i);
    BitAnd(Shl(x, 24), 0xFF00_0000, i);
    Masks(i);
    ShrBit(x, 24, i);
    ShrBit(x, 8, i);
    BitShl(x, 8, i);
    BitShl(x, 24, i);
  }

  lemma BitOfByte(x: Word, s: nat, i: nat)
    requires s in {0, 8, 16, 24} && i < 8
    ensures Bit(x / Pow2(s) % 0x100, i) == Bit(x, i + s)
  {
    Pow2Table();
    DivShrinks(x, Pow2(s));
    BitOfMod(x / Pow2(s), 8, i);
    BitOfShiftRight(x, s, i);
  }

  lemma BitSwab(x: Word, i: nat)
    requires i < 32
    ensures Bit(Swab(x), i) == Bit(x, if i < 8 then i + 24 else if i < 16 then i + 8 else if i < 24 then i - 8 else i - 24)
  {
    ByteShifts();
    SwabBytes(x);
    hide Bit, Pow2, Swab;
    BitOfBytes(x % 0x100, x / 0x100 % 0x100, x / 0x1_0000 % 0x100, x / 0x100_0000, i);
    if i < 8 {
      BitOfByte(x, 24, i);
    } else if i < 16 {
      BitOfByte(x, 16, i - 8);
    } else if i < 24 {
      BitOfByte(x, 8, i - 16);
    } else {
      BitOfByte(x, 0, i - 24);
    }
  }

  lemma ByteShifts()
    ensures Pow2(0) == 1 && Pow2(8) == 0x100 && Pow2(16) == 0x1_0000 && Pow2(24) == 0x100_0000
  {
    Pow2Table();
    Pow2Add(8, 16);
    Pow2Zero();
  }

  lemma SwabBytes(x: Word)
    ensures Swab(x) == x % 0x100 * 0x100_0000 + x / 0x100 % 0x100 * 0x1_0000 + x / 0x1_0000 % 0x100 * 0x100 + x / 0x100_0000
    ensures x / 1 == x && x / 0x100_0000 % 0x100 == x / 0x100_0000
  {
  }

  lemma Pow2Zero()
    ensures Pow2(0) == 1
  {
  }

  lemma GlslBswapAgrees(x: Word)
    ensures GlslBswap(x) == Swab(x)
  {
    hide Bit, GlslBswap, Swab;
    forall i | 0 <= i < 32
      ensures Bit(GlslBswap(x), i) == Bit(Swab(x), i)
    {
      BitBswap(x, i);
      BitSwab(x, i);
    }
    SameWord(GlslBswap(x), Swab(x));
  }

  // ---- a lane of the shader ----

  datatype Lane = Lane(
    state2: Eight, s0: Word, s1: Word, frame: Frame, digestLane: Word, dtmp: Eight, digest: Eight,
    resultHi: Word, resultLo: Word)

  /** The steps of `main`, its loops unrolled. */
  datatype Instr =
    | Begin
    | ShareSeed0(h: nat)
    | ShareSeed1(h: nat)
    | Fill
    | Body(l: Word, stmt: Stmt)
    | Reduce
    | ShareDigest(i: nat)
    | Keep(h: nat)
    | Finish

  /** What a dispatch fixes: permutation, variant, header, start nonce, buffers, and each lane's
      invocation number. */
  datatype Launch = Launch(
    perm: Perm, variant: Variant, header: Eight, start: U64, gDag: seq<Word>, cDag: CacheWords,
    dagElements: Positive, gids: seq<Word>) {
    /** The nonce a lane hashes: start + gid in 64 bits. */
    function NonceOf(lane: nat): U64
      requires lane < |gids|
    {
      (start + gids[lane]) % 0x1_0000_0000_0000_0000
    }
  }

  function LaneId(lane: nat): nat { lane % 16 }
  function SgBase(lane: nat): nat { lane / 16 * 16 }

  function EnvOf(k: Launch, lane: nat, l: Word): Env
    requires lane < 32
  {
    Env(l, LaneId(lane), SgBase(lane), k.gDag, k.cDag, k.dagElements)
  }

  /** The low word of start + gid, and the high word with the carry recovered by a comparison. */
  function NonceLo(k: Launch, gid: Word): Word { Add(k.start % 0x1_0000_0000, gid) }
  function NonceHi(k: Launch, gid: Word): Word {
    Add(k.start / 0x1_0000_0000, if NonceLo(k, gid) < k.start % 0x1_0000_0000 then 1 else 0)
  }

  /** The variant's seed text: direct, or byte-swapped and exchanged. */
  function Seeds(variant: Variant, s0: Word, s1: Word): (Word, Word) {
    if variant.Kawpow? then (s0, s1) else (GlslBswap(s1), GlslBswap(s0))
  }

  /** The state before the last permutation, its seed words swapped by the shader. */
  function FinalFill(k: Launch, lane: Lane): Keccak.State {
    LastState(k.variant, k.header, lane.state2, GlslBswap(lane.state2[1]), GlslBswap(lane.state2[0]), lane.digest)
  }

  function LocalStep(k: Launch, lane: nat, i: Instr, s: Lane): Lane
    requires |k.gids| == 32
  {
    if lane >= 32 then s
    else
      match i
      case Begin =>
        var gid := k.gids[lane];
        s.(state2 := k.perm(SeedState(k.header, NonceLo(k, gid), NonceHi(k, gid), k.variant))[..8])
      case Fill =>
        var seeds := Seeds(k.variant, s.s0, s.s1);
        s.(frame := s.frame.(mix := FillMix(seeds.0, seeds.1, LaneId(lane))))
      case Body(l, st) =>
        var f := Exec(EnvOf(k, lane, l), s.frame, st);
        if f.Some? then s.(frame := f.value) else s
      case Reduce =>
        s.(digestLane := LaneDigest(s.frame.mix), dtmp := seq(8, _ => FNV_OFFSET_BASIS))
      case Keep(h) => if h == LaneId(lane) then s.(digest := s.dtmp) else s
      case Finish =>
        var st := k.perm(FinalFill(k, s));
        s.(resultHi := GlslBswap(st[0]), resultLo := GlslBswap(st[1]))
      case _ => s
  }

  function Publish(k: Launch, lane: nat, i: Instr, s: Lane): Word {
    match i
    case ShareSeed0(_) => s.state2[0]
    case ShareSeed1(_) => s.state2[1]
    case ShareDigest(_) => s.digestLane
    case Body(l, st) =>
      if lane < 32 && IsShuffle(st) then Eval(EnvOf(k, lane, l), s.frame, st.rhs.a).GetOr(0) else 0
    case _ => 0
  }

  function Source(k: Launch, lane: nat, i: Instr, s: Lane): nat {
    match i
    case ShareSeed0(h) => SgBase(lane) + h
    case ShareSeed1(h) => SgBase(lane) + h
    case ShareDigest(n) => SgBase(lane) + n
    case Body(l, st) =>
      if lane < 32 && IsShuffle(st) then Eval(EnvOf(k, lane, l), s.frame, st.rhs.b).GetOr(0) else 0
    case _ => 0
  }

  function Receive(k: Launch, lane: nat, i: Instr, s: Lane, v: Word): Lane {
    match i
    case ShareSeed0(_) => s.(s0 := v)
    case ShareSeed1(_) => s.(s1 := v)
    case ShareDigest(n) => s.(dtmp := s.dtmp[n % 8 := Fnv1a(s.dtmp[n % 8], v)])
    case Body(l, st) =>
      if lane < 32 && st.Assign? then
        var f := Store(EnvOf(k, lane, l), s.frame, st.lhs, v);
        if f.Some? then s.(frame := f.value) else s
      else s
    case _ => s
  }

  predicate MeetsAt(i: Instr) {
    i.ShareSeed0? || i.ShareSeed1? || i.ShareDigest? || (i.Body? && IsShuffle(i.stmt))
  }

  function Subgroup(k: Launch): Machine<Instr, Lane, Word>
    requires |k.gids| == 32
  {
    Machine(
      (i: Instr) => MeetsAt(i),
      (lane: nat, i: Instr, s: Lane) => LocalStep(k, lane, i, s),
      (lane: nat, i: Instr, s: Lane) => Publish(k, lane, i, s),
      (lane: nat, i: Instr, s: Lane) => Source(k, lane, i, s),
      (lane: nat, i: Instr, s: Lane, v: Word) => Receive(k, lane, i, s, v))
  }

  // ---- the unrolled program ----

  function BodyCode(l: Word, stmts: seq<Stmt>): seq<Instr> {
    if stmts == [] then [] else BodyCode(l, stmts[..|stmts| - 1]) + [Body(l, stmts[|stmts| - 1])]
  }
  function LoopsCode(n: nat, stmts: seq<Stmt>): seq<Instr>
    requires n <= CNT_DAG
  {
    if n == 0 then [] else LoopsCode(n - 1, stmts) + BodyCode(n - 1, stmts)
  }
  function DigestCode(n: nat): seq<Instr> { if n == 0 then [] else DigestCode(n - 1) + [ShareDigest(n - 1)] }

  function OneHash(h: nat, stmts: seq<Stmt>): seq<Instr> {
    [ShareSeed0(h), ShareSeed1(h), Fill] + LoopsCode(CNT_DAG, stmts) + [Reduce] + DigestCode(LANES) + [Keep(h)]
  }
  function Hashes(n: nat, stmts: seq<Stmt>): seq<Instr> {
    if n == 0 then [] else Hashes(n - 1, stmts) + OneHash(n - 1, stmts)
  }
  function MainCode(stmts: seq<Stmt>): seq<Instr> { [Begin] + Hashes(LANES, stmts) + [Finish] }
}
