/** One KawPow hash as a function: the sequential specification. */
module Hash {
  import opened Words
  import opened Kiss99
  import opened ProgPow
  import opened Interpreter
  import opened Entropy
  import Keccak

  datatype Variant = Kawpow | Vanilla

  /** Eight words: a header, a seed state or a mix hash. */
  type Eight = s: seq<Word> | |s| == 8 witness seq(8, _ => 0)
  /** The permutation of the sponge. */
  type Perm = Keccak.State -> Keccak.State

  /** The fifteen words "RAVENCOINKAWPOW". */
  const RAVENCOIN: seq<Word> := [
    0x72, 0x41, 0x56, 0x45, 0x4E, 0x43, 0x4F, 0x49, 0x4E, 0x4B, 0x41, 0x57, 0x50, 0x4F, 0x57]

  function Zero(n: nat): seq<Word> { seq(n, _ => 0) }

  /** Iterations of a hash, and lanes that share it. */
  const CNT_DAG: nat := 64
  const LANES: nat := 16

  // ---- the first keccak ----

  function SeedState(header: Eight, lo: Word, hi: Word, variant: Variant): Keccak.State {
    header + [lo, hi] + (if variant.Kawpow? then RAVENCOIN else Zero(15))
  }

  function State2(perm: Perm, header: Eight, nonce: U64, variant: Variant): Eight {
    perm(SeedState(header, nonce % 0x1_0000_0000, nonce / 0x1_0000_0000, variant))[..8]
  }

  /** The two seed words, read directly or byte-swapped and exchanged. */
  function SeedPair(state2: Eight, variant: Variant): (Word, Word) {
    if variant.Kawpow? then (state2[0], state2[1]) else (Swab(state2[1]), Swab(state2[0]))
  }

  // ---- the mix ----

  function FillMix(seed0: Word, seed1: Word, lane: Word): Regs {
    seq(32, (i: nat) requires i < 32 => Draw(Seeded(seed0, seed1, lane, lane), i))
  }

  function InitialLanes(seeds: (Word, Word)): Lanes {
    var lanes := seq<Regs>(16, (lane: nat) requires lane < 16 => FillMix(seeds.0, seeds.1, lane));
    lanes
  }

  /** What a hash reads besides header and nonce. */
  datatype Setup = Setup(perm: Perm, variant: Variant, ops: seq<Op>, cdag: CacheWords, rows: Word -> Row, dagElements: Positive)

  function MixOf(setup: Setup, state2: Eight): Eight {
    MixHash(RunLoops(setup.ops, CNT_DAG, InitialLanes(SeedPair(state2, setup.variant)), setup.cdag, setup.rows, setup.dagElements))
  }

  // ---- the final keccak ----

  /** The last state of the sponge; the vanilla one takes the seed as two words. */
  function LastState(variant: Variant, header: Eight, state2: Eight, lo: Word, hi: Word, digest: Eight): Keccak.State {
    if variant.Kawpow? then state2 + digest + RAVENCOIN[..9] else header + [lo, hi] + digest + Zero(7)
  }

  function ResultOf(setup: Setup, header: Eight, state2: Eight, digest: Eight): U64 {
    var st := setup.perm(LastState(setup.variant, header, state2, Swab(state2[1]), Swab(state2[0]), digest));
    Swab(st[0]) * 0x1_0000_0000 + Swab(st[1])
  }

  /** Mix hash and 64-bit result of a nonce. */
  function HashOne(setup: Setup, header: Eight, nonce: U64): (Eight, U64) {
    var state2 := State2(setup.perm, header, nonce, setup.variant);
    var digest := MixOf(setup, state2);
    (digest, ResultOf(setup, header, state2, digest))
  }

  // ---- the input constraint ----

  /** The words spell the coin and the algorithm. */
  lemma RavencoinSpells()
    ensures |RAVENCOIN| == |"rAVENCOINKAWPOW"|
    ensures forall i :: 0 <= i < |RAVENCOIN| ==> RAVENCOIN[i] == "rAVENCOINKAWPOW"[i] as nat
  {
  }
}
