/** The per-period random program: the source's generator loop and the program it draws. */
module ProgPow {
  import opened Words
  import opened Kiss99

  const CNT_CACHE: nat := 11
  const CNT_MATH: nat := 18

  /** One of the 32 mix registers of a lane. */
  type Reg = x: nat | x < 32
  /** One of the four words a lane loads from the DAG. */
  type LoadIndex = x: nat | x < 4

  datatype Op =
    | Global
    | Cache(src: Reg, dst: Reg, r: Word)
    | Math(s1: Reg, s2: Reg, dst: Reg, r1: Word, r2: Word)
    | DagMerge(dst: Reg, i: LoadIndex, r: Word)

  type Order = s: seq<Reg> | |s| == 32 witness seq(32, (i: nat) requires i < 32 => i)

  // ---- the program, draw by draw ----

  function Identity(): Order { seq(32, (i: nat) requires i < 32 => i) }

  function Swap(s: Order, i: Reg, j: Reg): Order { s[i := s[j]][j := s[i]] }

  /** `n` steps of a Fisher-Yates shuffle from the top place down, `draw(k)` being its k-th number. */
  function ShuffledBy(draw: nat -> Word, n: nat): Order
    requires n <= 31
  {
    if n == 0 then Identity() else Swap(ShuffledBy(draw, n - 1), 32 - n, draw(n - 1) % (33 - n))
  }

  /** The shuffle that uses every second draw of the generator, from draw `first` on. */
  function Shuffled(k: Kiss, first: nat, n: nat): Order
    requires n <= 31
  {
    ShuffledBy((j: nat) => Draw(k, first + 2 * j), n)
  }

  function Min(a: nat, b: nat): nat { if a <= b then a else b }

  /** The setting of one program: its generator and its two operation counts. */
  datatype Setting = Setting(k: Kiss, cache: nat, math: nat) {
    function DstOrder(): Order { Shuffled(k, 0, 31) }
    function SrcOrder(): Order { Shuffled(k, 1, 31) }

    /** Operations, and draws, before round `i` of the generator's main loop. */
    function OpsBefore(i: nat): nat { Min(i, cache) + Min(i, math) }
    function DrawsBefore(i: nat): nat { 62 + Min(i, cache) + 3 * Min(i, math) }

    function CacheOp(i: nat): Op {
      Cache(SrcOrder()[i % 32], DstOrder()[OpsBefore(i) % 32], Draw(k, DrawsBefore(i)))
    }

    function MathOp(i: nat): Op {
      var c := if i < cache then 1 else 0;
      var d := DrawsBefore(i) + c;
      var (s1, s2) := Sources(Draw(k, d) % 992);
      Math(s1, s2, DstOrder()[(OpsBefore(i) + c) % 32], Draw(k, d + 1), Draw(k, d + 2))
    }

    function RoundOps(i: nat): seq<Op> {
      (if i < cache then [CacheOp(i)] else []) + (if i < math then [MathOp(i)] else [])
    }

    function MainOps(n: nat): seq<Op> { if n == 0 then [] else MainOps(n - 1) + RoundOps(n - 1) }

    function Merge(i: LoadIndex): Op {
      DagMerge(if i == 0 then 0 else DstOrder()[(cache + math + i - 1) % 32], i,
               Draw(k, 62 + cache + 3 * math + i))
    }

    function Ops(): seq<Op> {
      [Global] + MainOps(if cache <= math then math else cache) + [Merge(0), Merge(1), Merge(2), Merge(3)]
    }
  }

  /** Two different math sources from one number below 32 * 31. */
  function Sources(v: nat): (p: (Reg, Reg))
    requires v < 992
    ensures p.0 != p.1
  {
    var s1, s2 := v % 32, v / 32;
    (s1, if s2 >= s1 then s2 + 1 else s2)
  }

  function SettingOf(progSeed: U64, cntCache: nat, cntMath: nat): Setting {
    var seed0, seed1 := progSeed % 0x1_0000_0000, progSeed / 0x1_0000_0000;
    Setting(Seeded(seed0, seed1, seed0, seed1), cntCache, cntMath)
  }

  function Program(progSeed: U64, cntCache: nat, cntMath: nat): seq<Op> {
    SettingOf(progSeed, cntCache, cntMath).Ops()
  }

  // ---- the generator loop of the source ----

  method Exchange(a: array<Reg>, i: Reg, j: Reg)
    requires a.Length == 32
    modifies a
    ensures a[..] == Swap(old(a[..]), i, j)
  {
    a[i], a[j] := a[j], a[i];
  }

  method BuildProgram(progSeed: U64, cntCache: nat, cntMath: nat) returns (ops: seq<Op>)
    ensures ops == Program(progSeed, cntCache, cntMath)
  {
    hide Fnv1a, Draw, Shuffled, Sources, StateAt, Setting.MainOps, Setting.Merge;
    var seed0, seed1 := progSeed % 0x1_0000_0000, progSeed / 0x1_0000_0000;
    var fnvHash := FNV_OFFSET_BASIS;
    fnvHash := Fnv1a(fnvHash, seed0);
    var z := fnvHash;
    fnvHash := Fnv1a(fnvHash, seed1);
    var w := fnvHash;
    fnvHash := Fnv1a(fnvHash, seed0);
    var jsr := fnvHash;
    fnvHash := Fnv1a(fnvHash, seed1);
    var jcong := fnvHash;
    var rnd := new Generator(z, w, jsr, jcong);
    ghost var p := SettingOf(progSeed, cntCache, cntMath);
    assert rnd.Current() == p.k;
    var mixSeqDst, mixSeqCache := ShuffleOrders(rnd, p.k);
    ops := MainLoop(rnd, p, mixSeqDst, mixSeqCache, cntCache, cntMath);
    ghost var before := ops;
    var merges := MergeTail(rnd, p, mixSeqDst, cntCache + cntMath);
    ops := ops + merges;
  }

  method MergeTail(rnd: Generator, ghost p: Setting, mixSeqDst: array<Reg>, dstCnt: nat)
    returns (ops: seq<Op>)
    requires dstCnt == p.cache + p.math
    requires mixSeqDst.Length == 32 && mixSeqDst[..] == p.DstOrder()
    requires rnd.Current() == StateAt(p.k, 62 + p.cache + 3 * p.math)
    modifies rnd
    ensures ops == [p.Merge(0), p.Merge(1), p.Merge(2), p.Merge(3)]
  {
    hide Draw, Shuffled, StateAt;
    ghost var d := 62 + p.cache + 3 * p.math;
    var cnt := dstCnt;
    var r := DrawNext(rnd, p.k, d);
    ops := [DagMerge(0, 0, r)];
    for i := 1 to 4
      invariant cnt == dstCnt + i - 1
      invariant rnd.Current() == StateAt(p.k, d + i)
      invariant |ops| == i && forall n: nat :: n < i ==> ops[n] == p.Merge(n)
    {
      var dst := mixSeqDst[cnt % 32];
      cnt := cnt + 1;
      r := DrawNext(rnd, p.k, d + i);
      ops := ops + [DagMerge(dst, i, r)];
    }
  }

  /** One draw, counted. */
  method DrawNext(rnd: Generator, ghost k: Kiss, ghost n: nat) returns (r: Word)
    requires rnd.Current() == StateAt(k, n)
    modifies rnd
    ensures rnd.Current() == StateAt(k, n + 1)
    ensures r == Draw(k, n)
  {
    r := rnd.NextU32();
  }

  method ShuffleOrders(rnd: Generator, ghost k: Kiss) returns (dst: array<Reg>, cache: array<Reg>)
    requires rnd.Current() == k
    modifies rnd
    ensures fresh(dst) && fresh(cache) && dst.Length == cache.Length == 32
    ensures dst[..] == Shuffled(k, 0, 31) && cache[..] == Shuffled(k, 1, 31)
    ensures rnd.Current() == StateAt(k, 62)
  {
    hide Draw, Swap, StateAt, Shuffled;
    NothingShuffled(k);
    dst := new Reg[32]((i: nat) requires i < 32 => i);
    cache := new Reg[32]((i: nat) requires i < 32 => i);
    var i: nat := 31;
    assert StateAt(k, 0) == k by { StateAtZero(k); }
    while i > 0
      invariant i <= 31
      invariant dst[..] == Shuffled(k, 0, 31 - i) && cache[..] == Shuffled(k, 1, 31 - i)
      invariant rnd.Current() == StateAt(k, 2 * (31 - i))
    {
      ShuffleStep(k, 0, 31 - i);
      ShuffleStep(k, 1, 31 - i);
      var r := DrawNext(rnd, k, 2 * (31 - i));
      Exchange(dst, i, r % (i + 1));
      r := DrawNext(rnd, k, 2 * (31 - i) + 1);
      Exchange(cache, i, r % (i + 1));
      i := i - 1;
    }
  }

  lemma NothingShuffled(k: Kiss)
    ensures Shuffled(k, 0, 0) == Identity() && Shuffled(k, 1, 0) == Identity()
  {
  }

  lemma ShuffleStep(k: Kiss, first: nat, n: nat)
    requires n < 31
    ensures Shuffled(k, first, n + 1) == Swap(Shuffled(k, first, n), 31 - n, Draw(k, first + 2 * n) % (32 - n))
  {
    hide Draw, Swap;
  }

  lemma StateAtZero(k: Kiss)
    ensures StateAt(k, 0) == k
  {
  }

  method MainLoop(rnd: Generator, ghost p: Setting, mixSeqDst: array<Reg>, mixSeqCache: array<Reg>,
                  cntCache: nat, cntMath: nat)
    returns (ops: seq<Op>)
    requires p.cache == cntCache && p.math == cntMath
    requires mixSeqDst.Length == mixSeqCache.Length == 32
    requires mixSeqDst[..] == p.DstOrder() && mixSeqCache[..] == p.SrcOrder()
    requires rnd.Current() == StateAt(p.k, 62)
    modifies rnd
    ensures ops == [Global] + p.MainOps(if cntCache <= cntMath then cntMath else cntCache)
    ensures rnd.Current() == StateAt(p.k, 62 + cntCache + 3 * cntMath)
  {
    hide Draw, Shuffled, StateAt, Setting.RoundOps;
    var dstCnt, cacheCnt := 0, 0;
    ops := [Global];
    for i := 0 to if cntCache <= cntMath then cntMath else cntCache
      invariant dstCnt == p.OpsBefore(i) && cacheCnt == Min(i, cntCache)
      invariant rnd.Current() == StateAt(p.k, p.DrawsBefore(i))
      invariant ops == [Global] + p.MainOps(i)
    {
      var round: seq<Op>;
      round, dstCnt, cacheCnt := MainRound(rnd, p, mixSeqDst, mixSeqCache, cntCache, cntMath, i, dstCnt, cacheCnt);
      ops := ops + round;
    }
  }

  /** One turn of the main loop: a cache operation and a math operation while their counts last. */
  method MainRound(rnd: Generator, ghost p: Setting, mixSeqDst: array<Reg>, mixSeqCache: array<Reg>,
                   cntCache: nat, cntMath: nat, i: nat, dstCnt: nat, cacheCnt: nat)
    returns (ops: seq<Op>, dstCnt': nat, cacheCnt': nat)
    requires p.cache == cntCache && p.math == cntMath
    requires mixSeqDst.Length == mixSeqCache.Length == 32
    requires mixSeqDst[..] == p.DstOrder() && mixSeqCache[..] == p.SrcOrder()
    requires rnd.Current() == StateAt(p.k, p.DrawsBefore(i))
    requires dstCnt == p.OpsBefore(i) && cacheCnt == Min(i, cntCache)
    modifies rnd
    ensures ops == p.RoundOps(i)
    ensures rnd.Current() == StateAt(p.k, p.DrawsBefore(i + 1))
    ensures dstCnt' == p.OpsBefore(i + 1) && cacheCnt' == Min(i + 1, cntCache)
  {
    hide Draw, Shuffled, StateAt, Sources;
    ops, dstCnt', cacheCnt' := [], dstCnt, cacheCnt;
    ghost var d := p.DrawsBefore(i);
    if i < cntCache {
      var src := mixSeqCache[cacheCnt' % 32];
      cacheCnt' := cacheCnt' + 1;
      var dst := mixSeqDst[dstCnt' % 32];
      dstCnt' := dstCnt' + 1;
      var r := DrawNext(rnd, p.k, d);
      ops := ops + [Cache(src, dst, r)];
      d := d + 1;
    }
    if i < cntMath {
      var dst := mixSeqDst[dstCnt' % 32];
      dstCnt' := dstCnt' + 1;
      var op := MathStep(rnd, p.k, d, dst);
      ops := ops + [op];
    }
  }

  /** A math operation: a pair of sources, then `r1`, then `r2`. */
  method MathStep(rnd: Generator, ghost k: Kiss, ghost d: nat, dst: Reg) returns (op: Op)
    requires rnd.Current() == StateAt(k, d)
    modifies rnd
    ensures rnd.Current() == StateAt(k, d + 3)
    ensures var p := Sources(Draw(k, d) % 992);
            op == Math(p.0, p.1, dst, Draw(k, d + 1), Draw(k, d + 2))
  {
    hide Draw, StateAt;
    var v := DrawNext(rnd, k, d);
    var srcRnd := v % 992;
    var src1 := srcRnd % 32;
    var src2 := srcRnd / 32;
    if src2 >= src1 {
      src2 := src2 + 1;
    }
    var r1 := DrawNext(rnd, k, d + 1);
    var r2 := DrawNext(rnd, k, d + 2);
    op := Math(src1, src2, dst, r1, r2);
  }
}
