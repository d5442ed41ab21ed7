/** The sequential hash of the source, with its arrays and loops, proved against the specification. */
module Reference {
  import opened Words
  import opened Arrays
  import opened Kiss99
  import opened ProgPow
  import opened Interpreter
  import opened Entropy
  import opened Ethash
  import opened LightCaches
  import opened Hash
  import Keccak
  import KeccakInPlace

  // ---- keccak seed and final state ----

  /** The permutation of the sponge: keccak-f800. */
  function F800(): Perm { (s: Keccak.State) => Keccak.KeccakF800(s) }

  /** A header as eight little-endian words. */
  function HeaderWords(header: seq<Byte>): Eight
    requires |header| == 32
  {
    seq(8, (i: nat) requires i < 8 =>
      LittleEndian(header[4 * i], header[4 * i + 1], header[4 * i + 2], header[4 * i + 3]))
  }

  method HeaderToWords(header: seq<Byte>) returns (w: Eight)
    requires |header| == 32
    ensures w == HeaderWords(header)
  {
    hide LittleEndian;
    w := seq(8, _ => 0);
    for i := 0 to 8
      invariant forall k :: 0 <= k < i ==> w[k] == HeaderWords(header)[k]
    {
      w := w[i := LittleEndian(header[4 * i], header[4 * i + 1], header[4 * i + 2], header[4 * i + 3])];
    }
  }

  /** Two words as one 64-bit number. */
  function Join(hi: Word, lo: Word): U64 { hi * 0x1_0000_0000 + lo }

  /** The state of the first permutation. */
  method SeedArray(header: Eight, lo: Word, hi: Word, variant: Variant) returns (st: array<Word>)
    ensures fresh(st) && st[..] == SeedState(header, lo, hi, variant)
  {
    hide SeedState;
    st := new Word[25](_ => 0);
    CopyInto(st, 0, header);
    st[8], st[9] := lo, hi;
    assert st[..8] == header && st[10..] == Zero(15);
    if variant.Kawpow? {
      CopyInto(st, 10, RAVENCOIN);
      assert st[..8] == header && st[10..] == RAVENCOIN;
    }
    ghost var s := st[..];
    assert s[..8] == st[..8] && s[10..] == st[10..];
    SeedStateIs(header, lo, hi, variant, s);
  }

  method ProgpowSeed(header: Eight, nonce: U64, variant: Variant) returns (state2: Eight, seed64: U64)
    ensures state2 == State2(F800(), header, nonce, variant)
    ensures seed64 / 0x1_0000_0000 == state2[1] && seed64 % 0x1_0000_0000 == state2[0]
  {
    hide Keccak.KeccakF800, State2, SeedState;
    var st := SeedArray(header, nonce % 0x1_0000_0000, nonce / 0x1_0000_0000, variant);
    KeccakInPlace.KeccakF800InPlace(st);
    State2Is(header, nonce, variant);
    state2 := st[..8];
    seed64 := Join(state2[1], state2[0]);
    SplitWords(state2[1], state2[0]);
  }

  lemma SeedStateIs(header: Eight, lo: Word, hi: Word, variant: Variant, st: seq<Word>)
    requires |st| == 25 && st[..8] == header && st[8] == lo && st[9] == hi
    requires st[10..] == if variant.Kawpow? then RAVENCOIN else Zero(15)
    ensures st == SeedState(header, lo, hi, variant)
  {
    assert st == st[..8] + [st[8], st[9]] + st[10..];
  }

  lemma State2Is(header: Eight, nonce: U64, variant: Variant)
    ensures State2(F800(), header, nonce, variant)
            == Keccak.KeccakF800(SeedState(header, nonce % 0x1_0000_0000, nonce / 0x1_0000_0000, variant))[..8]
  {
    hide Keccak.KeccakF800, SeedState;
  }

  /** The state of the last permutation. */
  method FinalArray(state2: Eight, digest: Eight, header: Eight, lo: Word, hi: Word, variant: Variant) returns (st: array<Word>)
    ensures fresh(st)
    ensures st[..] == LastState(variant, header, state2, lo, hi, digest)
  {
    st := new Word[25](_ => 0);
    if variant.Kawpow? {
      CopyInto(st, 0, state2);
      CopyInto(st, 8, digest);
      CopyInto(st, 16, RAVENCOIN[..9]);
    } else {
      CopyInto(st, 0, header);
      st[8], st[9] := lo, hi;
      assert st[..10] == header + [lo, hi];
      CopyInto(st, 10, digest);
      assert st[..10] == header + [lo, hi] && st[10..18] == digest && st[18..] == Zero(7);
    }
  }

  method ProgpowFinal(state2: Eight, digest: Eight, header: Eight, seed64: U64, variant: Variant) returns (result: U64)
    ensures var st := Keccak.KeccakF800(LastState(variant, header, state2, seed64 % 0x1_0000_0000, seed64 / 0x1_0000_0000, digest));
            result == Join(Swab(st[0]), Swab(st[1]))
  {
    hide Keccak.KeccakF800, Swab, LastState;
    var st := FinalArray(state2, digest, header, seed64 % 0x1_0000_0000, seed64 / 0x1_0000_0000, variant);
    KeccakInPlace.KeccakF800InPlace(st);
    result := Join(Swab(st[0]), Swab(st[1]));
  }

  // ---- the mix ----

  method FillMixRegs(seed0: Word, seed1: Word, lane: Word) returns (mix: Regs)
    ensures mix == FillMix(seed0, seed1, lane)
  {
    hide Fnv1a, Kiss.Next, Kiss.Output;
    var fnvHash := Fnv1a(FNV_OFFSET_BASIS, seed0);
    var z := fnvHash;
    fnvHash := Fnv1a(fnvHash, seed1);
    var w := fnvHash;
    fnvHash := Fnv1a(fnvHash, lane);
    var jsr := fnvHash;
    fnvHash := Fnv1a(fnvHash, lane);
    var jcong := fnvHash;
    var rnd := new Generator(z, w, jsr, jcong);
    mix := Zeros();
    for i := 0 to 32
      invariant rnd.Current() == StateAt(Seeded(seed0, seed1, lane, lane), i)
      invariant forall k :: 0 <= k < i ==> mix[k] == FillMix(seed0, seed1, lane)[k]
    {
      var r := rnd.NextU32();
      mix := mix[i := r];
    }
  }

  method RunOpsInPlace(ops: seq<Op>, mixLanes: array<Regs>, lane: nat, dd: Row, cdag: CacheWords)
    requires mixLanes.Length == 16 && lane < 16
    modifies mixLanes
    ensures mixLanes[..] == old(mixLanes[..])[lane := RunOps(ops, old(mixLanes[lane]), dd, cdag)]
  {
    hide MergeExec, MathExec;
    for k := 0 to |ops|
      invariant mixLanes[..] == old(mixLanes[..])[lane := RunOps(ops[..k], old(mixLanes[lane]), dd, cdag)]
    {
      assert ops[..k + 1][..k] == ops[..k];
      var mix := mixLanes[lane];
      match ops[k]
      case Global =>
      case Cache(src, dst, r) =>
        var data := cdag[mix[src] % 4096];
        mixLanes[lane] := mix[dst := MergeExec(mix[dst], data, r)];
      case Math(s1, s2, dst, r1, r2) =>
        var data := MathExec(mix[s1], mix[s2], r1);
        mixLanes[lane] := mix[dst := MergeExec(mix[dst], data, r2)];
      case DagMerge(dst, i, r) =>
        mixLanes[lane] := mix[dst := MergeExec(mix[dst], dd[i], r)];
    }
    assert ops[..|ops|] == ops;
  }

  /** The rows a light cache serves. */
  function RowsOf(h: Hash512, cache: Light, parents: Word): Word -> Row {
    (row: Word) => DagRowOf(h, cache, parents, row)
  }

  method LoadRows(light: LightCache, base: Word, loop: nat, de: Positive) returns (dataDag: seq<Row>)
    requires light.Valid() && loop < 64 && base < de
    modifies light`itemCache
    ensures light.Valid() && |dataDag| == 16
    ensures forall lane :: 0 <= lane < 16 ==>
      dataDag[lane] == DagRowOf(light.h, light.cache, light.parents, Low32(base * 16 + Xor(lane, loop) % 16))
  {
    hide DagRowOf, Xor, Low32, Sized, DatasetItem;
    dataDag := [];
    for lane := 0 to 16
      invariant light.Valid() && |dataDag| == lane
      invariant forall l :: 0 <= l < lane ==>
        dataDag[l] == DagRowOf(light.h, light.cache, light.parents, Low32(base * 16 + Xor(l, loop) % 16))
    {
      var row := light.DagRow(Low32(base * 16 + Xor(lane, loop) % 16));
      dataDag := dataDag + [row];
    }
  }

  /** One iteration over the 16 lanes, each updated in place. */
  method RunLoopInPlace(ops: seq<Op>, loop: nat, mixLanes: array<Regs>, cdag: CacheWords, light: LightCache, de: Positive)
    requires mixLanes.Length == 16 && loop < 64 && light.Valid()
    modifies mixLanes, light`itemCache
    ensures light.Valid()
    ensures mixLanes[..] == RunLoop(ops, loop, old(mixLanes[..]), cdag, RowsOf(light.h, light.cache, light.parents), de)
  {
    hide DagRowOf, RunOps, Sized, DatasetItem, Xor, RunLoop, RowsOf;
    ghost var before := mixLanes[..];
    var base := mixLanes[loop % 16][0] % de;
    var dataDag := LoadRows(light, base, loop, de);
    for lane := 0 to 16
      invariant light.Valid()
      invariant forall l :: 0 <= l < lane ==> mixLanes[l] == RunOps(ops, before[l], dataDag[l], cdag)
      invariant forall l :: lane <= l < 16 ==> mixLanes[l] == before[l]
    {
      RunOpsInPlace(ops, mixLanes, lane, dataDag[lane], cdag);
    }
    LoopIs(ops, loop, before, cdag, light.h, light.cache, light.parents, de, dataDag, mixLanes[..]);
  }

  lemma LoopIs(ops: seq<Op>, loop: nat, before: Lanes, cdag: CacheWords, h: Hash512, cache: Light, parents: Word, de: Positive,
               dataDag: seq<Row>, after: seq<Regs>)
    requires loop < 64 && |dataDag| == 16 == |after|
    requires forall lane :: 0 <= lane < 16 ==>
      dataDag[lane] == DagRowOf(h, cache, parents, Low32(before[loop % 16][0] % de * 16 + Xor(lane, loop) % 16))
    requires forall l :: 0 <= l < 16 ==> after[l] == RunOps(ops, before[l], dataDag[l], cdag)
    ensures after == RunLoop(ops, loop, before, cdag, RowsOf(h, cache, parents), de)
  {
    hide DagRowOf, RunOps, DatasetItem, Xor, Low32;
    var rows, mix0 := RowsOf(h, cache, parents), before[loop % 16][0];
    forall l | 0 <= l < 16
      ensures after[l] == RunLoop(ops, loop, before, cdag, rows, de)[l]
    {
      var row := RowIndex(mix0, l, loop, de);
      assert row == Low32(mix0 % de * 16 + Xor(l, loop) % 16);
      assert rows(row) == dataDag[l];
    }
  }

  // ---- the reductions ----

  method ReduceLanes(mixLanes: array<Regs>) returns (digestLane: seq<Word>)
    requires mixLanes.Length == 16
    ensures |digestLane| == 16 && forall l :: 0 <= l < 16 ==> digestLane[l] == LaneDigest(mixLanes[l])
  {
    hide Fnv1a;
    digestLane := [];
    for lane := 0 to 16
      invariant |digestLane| == lane && forall l :: 0 <= l < lane ==> digestLane[l] == LaneDigest(mixLanes[l])
    {
      var mix := mixLanes[lane];
      var d := FNV_OFFSET_BASIS;
      for i := 0 to 32
        invariant d == FoldFnv1a(FNV_OFFSET_BASIS, mix[..i])
      {
        assert mix[..i + 1][..i] == mix[..i];
        d := Fnv1a(d, mix[i]);
      }
      assert mix[..32] == mix;
      digestLane := digestLane + [d];
    }
  }

  /** Word `j` of the digest after the lanes below `n`. */
  function DigestAfter(digestLane: seq<Word>, n: nat, j: nat): Word
    requires n <= |digestLane| == 16 && j < 8
  {
    if n <= j then FNV_OFFSET_BASIS
    else if n <= j + 8 then Fnv1a(FNV_OFFSET_BASIS, digestLane[j])
    else Fnv1a(Fnv1a(FNV_OFFSET_BASIS, digestLane[j]), digestLane[j + 8])
  }

  method ReduceDigest(digestLane: seq<Word>) returns (digest: Eight)
    requires |digestLane| == 16
    ensures forall j :: 0 <= j < 8 ==> digest[j] == DigestAfter(digestLane, 16, j)
  {
    hide Fnv1a;
    digest := seq(8, _ => FNV_OFFSET_BASIS);
    var i := 0;
    while i < 16
      invariant i in {0, 8, 16}
      invariant forall k :: 0 <= k < 8 ==> digest[k] == DigestAfter(digestLane, i, k)
    {
      for j := 0 to 8
        invariant forall k :: 0 <= k < 8 ==> digest[k] == DigestAfter(digestLane, i + j, k)
      {
        digest := digest[j := Fnv1a(digest[j], digestLane[i + j])];
      }
      i := i + 8;
    }
  }

  // ---- hash_one ----

  /** What a hash reads, from a light cache and a program's settings. */
  function SetupOf(h: Hash512, cache: Light, parents: Word, cdag: CacheWords, ops: seq<Op>, variant: Variant, de: Positive): Setup {
    Setup(F800(), variant, ops, cdag, RowsOf(h, cache, parents), de)
  }

  /** The first 4096 words of a light cache's DAG. */
  function FirstWords(h: Hash512, cache: Light, parents: Word): CacheWords {
    var words := seq<Word>(4096, (k: nat) requires k < 4096 => FlatWord(h, cache, parents, k));
    words
  }

  /** The setting of the hash for a light cache: its DAG's rows, its cache words, its entry count. */
  ghost function LightSetup(light: LightCache, progSeed: U64, variant: Variant, cntCache: nat, cntMath: nat): Setup
    reads light
    requires light.dagElements % 0x1_0000_0000 != 0
  {
    SetupOf(light.h, light.cache, light.parents, FirstWords(light.h, light.cache, light.parents),
            Program(progSeed, cntCache, cntMath), variant, light.dagElements % 0x1_0000_0000)
  }

  /** The two seed words handed to `fill_mix`. */
  method SeedWords(state2: Eight, variant: Variant) returns (seed0: Word, seed1: Word)
    ensures (seed0, seed1) == SeedPair(state2, variant)
  {
    if variant.Kawpow? {
      return state2[0], state2[1];
    }
    seed0, seed1 := Swab(state2[1]), Swab(state2[0]);
  }

  method FillLanes(seed0: Word, seed1: Word) returns (mixLanes: array<Regs>)
    ensures fresh(mixLanes) && mixLanes.Length == 16 && mixLanes[..] == InitialLanes((seed0, seed1))
  {
    hide FillMix;
    mixLanes := new Regs[16](_ => Zeros());
    for lane := 0 to 16
      invariant forall l :: 0 <= l < lane ==> mixLanes[l] == FillMix(seed0, seed1, l)
    {
      mixLanes[lane] := FillMixRegs(seed0, seed1, lane);
    }
  }

  /** The 64 iterations and the two reductions. */
  method Digest(setup: Setup, light: LightCache, state2: Eight) returns (digest: Eight)
    requires light.Valid() && setup.rows == RowsOf(light.h, light.cache, light.parents)
    modifies light`itemCache
    ensures light.Valid() && digest == MixOf(setup, state2)
  {
    hide RunLoop, InitialLanes, SeedPair, Sized, DatasetItem, FoldFnv1a, LaneDigest, Fnv1a, FillMix;
    var seed0, seed1 := SeedWords(state2, setup.variant);
    var mixLanes := FillLanes(seed0, seed1);
    ghost var init: Lanes := mixLanes[..];
    for loop := 0 to 64
      invariant light.Valid()
      invariant mixLanes[..] == RunLoops(setup.ops, loop, init, setup.cdag, setup.rows, setup.dagElements)
    {
      RunLoopInPlace(setup.ops, loop, mixLanes, setup.cdag, light, setup.dagElements);
    }
    var digestLane := ReduceLanes(mixLanes);
    digest := ReduceDigest(digestLane);
    assert digest == MixHash(mixLanes[..]);
  }

  /** The source's `hash_one`: it computes the specification's hash, and leaves the light cache as
      good as it was. */
  method ComputeHash(header: seq<Byte>, nonce: U64, light: LightCache, progSeed: U64, variant: Variant,
                     cntCache: nat, cntMath: nat)
    returns (digest: Eight, result: U64)
    requires |header| == 32 && light.Valid() && light.dagElements % 0x1_0000_0000 != 0
    modifies light`itemCache
    ensures light.Valid()
    ensures (digest, result) == HashOne(old(LightSetup(light, progSeed, variant, cntCache, cntMath)), HeaderWords(header), nonce)
  {
    hide Program, MixOf, FlatWord, DatasetItem, Sized, State2, HeaderWords, FirstWords, Keccak.KeccakF800, Swab;
    var headerWords := HeaderToWords(header);
    var state2, seed64 := ProgpowSeed(headerWords, nonce, variant);
    var ops := BuildProgram(progSeed, cntCache, cntMath);
    var de := light.dagElements % 0x1_0000_0000;
    var cdag := light.ProgpowCache();
    FirstWordsAre(light.h, light.cache, light.parents, cdag);
    var setup := SetupOf(light.h, light.cache, light.parents, cdag, ops, variant, de);
    digest := Digest(setup, light, state2);
    var canonSeed := Join(Swab(state2[0]), Swab(state2[1]));
    result := ProgpowFinal(state2, digest, headerWords, canonSeed, variant);
    SplitWords(Swab(state2[0]), Swab(state2[1]));
  }

  lemma SplitWords(hi: Word, lo: Word)
    ensures Join(hi, lo) % 0x1_0000_0000 == lo && Join(hi, lo) / 0x1_0000_0000 == hi
  {
  }

  lemma FirstWordsAre(h: Hash512, cache: Light, parents: Word, words: CacheWords)
    requires forall k :: 0 <= k < 4096 ==> words[k] == FlatWord(h, cache, parents, k)
    ensures words == FirstWords(h, cache, parents)
  {
    hide FlatWord;
  }
}
