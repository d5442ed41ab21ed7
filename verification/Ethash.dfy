/** The light cache, the dataset items derived from it, and the memoised row server. */
module Ethash {
  import opened Arith
  import opened Bits
  import opened Words
  import opened Interpreter

  type Block = s: seq<Byte> | |s| == 64 witness seq(64, _ => 0)
  type Item = s: seq<Word> | |s| == 16 witness seq(16, _ => 0)
  /** keccak-512, which this model does not open. */
  type Hash512 = seq<Byte> -> Block

  // ---- bytes and words ----

  function LittleEndian(b0: Byte, b1: Byte, b2: Byte, b3: Byte): Word {
    b0 + 0x100 * b1 + 0x1_0000 * b2 + 0x100_0000 * b3
  }

  function WordAt(b: Block, i: nat): Word
    requires i < 16
  {
    LittleEndian(b[4 * i], b[4 * i + 1], b[4 * i + 2], b[4 * i + 3])
  }

  function ToWords(b: Block): Item { seq(16, (i: nat) requires i < 16 => WordAt(b, i)) }

  function ByteOf(w: Word, k: nat): Byte {
    match k
    case 0 => w % 0x100
    case 1 => w / 0x100 % 0x100
    case 2 => w / 0x1_0000 % 0x100
    case _ => w / 0x100_0000
  }

  function FromWords(w: Item): Block { seq(64, (k: nat) requires k < 64 => ByteOf(w[k / 4], k % 4)) }

  lemma WordOfBytes(w: Word)
    ensures LittleEndian(ByteOf(w, 0), ByteOf(w, 1), ByteOf(w, 2), ByteOf(w, 3)) == w
  {
    var q1 := w / 0x100;
    var q2 := q1 / 0x100;
    QuotientTwice(w, 0x100);
    QuotientTwice(w, 0x1_0000);
    assert w / 0x1_0000 == q2 && w / 0x100_0000 == q2 / 0x100;
  }

  lemma QuotientTwice(w: nat, d: nat)
    requires d in {0x100, 0x1_0000}
    ensures w / (d * 0x100) == w / d / 0x100
  {
    DivMod(w, d);
    DivMod(w / d, 0x100);
    var q, r := w / d / 0x100, w / d % 0x100;
    assert w == d * 0x100 * q + (d * r + w % d);
    DivUnique(w, d * 0x100, q, d * r + w % d);
  }

  lemma WordsRoundTrip(w: Item)
    ensures ToWords(FromWords(w)) == w
  {
    hide LittleEndian, ByteOf;
    forall i | 0 <= i < 16
      ensures ToWords(FromWords(w))[i] == w[i]
    {
      WordOfBytes(w[i]);
    }
  }

  function XorByte(a: Byte, b: Byte): Byte {
    Pow2Table();
    Bitwise(XorOp, a, b, 8)
  }

  function XorBlock(a: Block, b: Block): Block { seq(64, (k: nat) requires k < 64 => XorByte(a[k], b[k])) }

  lemma BitXorByte(a: Byte, b: Byte, i: nat)
    requires i < 8
    ensures Bit(XorByte(a, b), i) == (Bit(a, i) != Bit(b, i))
  {
    BitOfBitwise(XorOp, a, b, 8, i);
  }

  /** Exclusive-or with the same block twice changes nothing. */
  lemma XorBlockTwice(a: Block, b: Block)
    ensures XorBlock(XorBlock(a, b), b) == a
  {
    hide XorByte, Bit;
    forall k | 0 <= k < 64
      ensures XorBlock(XorBlock(a, b), b)[k] == a[k]
    {
      XorByteTwice(a[k], b[k]);
    }
  }

  lemma XorByteTwice(a: Byte, b: Byte)
    ensures XorByte(XorByte(a, b), b) == a
  {
    Pow2Table();
    hide XorByte, Bit, Pow2;
    forall i | 0 <= i < 8
      ensures Bit(XorByte(XorByte(a, b), b), i) == Bit(a, i)
    {
      BitXorByte(XorByte(a, b), b, i);
      BitXorByte(a, b, i);
    }
    SameBits(XorByte(XorByte(a, b), b), a, 8);
  }

  lemma BitLittleEndian(b0: Byte, b1: Byte, b2: Byte, b3: Byte, i: nat)
    requires i < 32
    ensures Bit(LittleEndian(b0, b1, b2, b3), i) ==
            if i < 8 then Bit(b0, i) else if i < 16 then Bit(b1, i - 8) else if i < 24 then Bit(b2, i - 16) else Bit(b3, i - 24)
  {
    BitOfBytes(b3, b2, b1, b0, i);
    hide Bit;
  }

  lemma XorOfBytes(a0: Byte, a1: Byte, a2: Byte, a3: Byte, b0: Byte, b1: Byte, b2: Byte, b3: Byte)
    ensures LittleEndian(XorByte(a0, b0), XorByte(a1, b1), XorByte(a2, b2), XorByte(a3, b3))
            == Xor(LittleEndian(a0, a1, a2, a3), LittleEndian(b0, b1, b2, b3))
  {
    hide XorByte, Bit, Xor, LittleEndian;
    var a, b := LittleEndian(a0, a1, a2, a3), LittleEndian(b0, b1, b2, b3);
    var x := LittleEndian(XorByte(a0, b0), XorByte(a1, b1), XorByte(a2, b2), XorByte(a3, b3));
    forall i | 0 <= i < 32
      ensures Bit(x, i) == Bit(Xor(a, b), i)
    {
      BitXor(a, b, i);
      BitLittleEndian(a0, a1, a2, a3, i);
      BitLittleEndian(b0, b1, b2, b3, i);
      BitLittleEndian(XorByte(a0, b0), XorByte(a1, b1), XorByte(a2, b2), XorByte(a3, b3), i);
      if i < 8 {
        BitXorByte(a0, b0, i);
      } else if i < 16 {
        BitXorByte(a1, b1, i - 8);
      } else if i < 24 {
        BitXorByte(a2, b2, i - 16);
      } else {
        BitXorByte(a3, b3, i - 24);
      }
    }
    SameWord(x, Xor(a, b));
  }

  /** The exclusive or of blocks, byte by byte, is that of their words. */
  lemma XorBlockWords(a: Block, b: Block, i: nat)
    requires i < 16
    ensures ToWords(XorBlock(a, b))[i] == Xor(WordAt(a, i), WordAt(b, i))
  {
    XorOfBytes(a[4 * i], a[4 * i + 1], a[4 * i + 2], a[4 * i + 3], b[4 * i], b[4 * i + 1], b[4 * i + 2], b[4 * i + 3]);
    hide XorByte, Xor, LittleEndian;
  }

  // ---- the light cache ----

  function Chain(h: Hash512, seed: seq<Byte>, i: nat): Block {
    if i == 0 then h(seed) else h(Chain(h, seed, i - 1))
  }

  /** RandMemoHash: item `i` of `n` after `round` rounds. An item sees its predecessors already
      rewritten by this round, and all later items as the previous round left them. */
  function MemoHash(h: Hash512, seed: seq<Byte>, n: nat, round: nat, i: nat): Block
    requires i < n
    decreases round, i
  {
    if round == 0 then Chain(h, seed, i)
    else
      var v := WordAt(MemoHash(h, seed, n, round - 1, i), 0) % n;
      var a := if i > 0 then MemoHash(h, seed, n, round, i - 1) else MemoHash(h, seed, n, round - 1, n - 1);
      var b := if v < i then MemoHash(h, seed, n, round, v) else MemoHash(h, seed, n, round - 1, v);
      h(XorBlock(a, b))
  }

  /** Three rounds over one vector, updated in place. */
  method MkCache(h: Hash512, cacheSize: nat, seed: seq<Byte>) returns (cache: seq<Block>)
    ensures cacheSize < 64 ==> cache == [h(seed)]
    ensures cacheSize >= 64 ==> |cache| == cacheSize / 64
    ensures cacheSize >= 64 ==> forall i :: 0 <= i < |cache| ==> cache[i] == MemoHash(h, seed, |cache|, 3, i)
  {
    hide XorBlock, WordAt;
    var n := cacheSize / 64;
    cache := [h(seed)];
    var i := 1;
    while i < n
      invariant |cache| == i && (n > 0 ==> i <= n) && (n == 0 ==> i == 1)
      invariant forall k :: 0 <= k < i ==> cache[k] == Chain(h, seed, k)
    {
      cache := cache + [h(cache[i - 1])];
      i := i + 1;
    }
    if n > 0 {
      for round := 0 to 3
        invariant |cache| == n
        invariant forall k :: 0 <= k < n ==> cache[k] == MemoHash(h, seed, n, round, k)
      {
        cache := MemoRound(h, seed, round, cache);
      }
    }
  }

  method MemoRound(h: Hash512, ghost seed: seq<Byte>, ghost round: nat, before: seq<Block>) returns (cache: seq<Block>)
    requires |before| > 0
    requires forall k :: 0 <= k < |before| ==> before[k] == MemoHash(h, seed, |before|, round, k)
    ensures |cache| == |before|
    ensures forall k :: 0 <= k < |cache| ==> cache[k] == MemoHash(h, seed, |cache|, round + 1, k)
  {
    hide XorBlock, WordAt, MemoHash;
    var n := |before|;
    cache := before;
    for i := 0 to n
      invariant |cache| == n
      invariant forall k :: 0 <= k < i ==> cache[k] == MemoHash(h, seed, n, round + 1, k)
      invariant forall k :: i <= k < n ==> cache[k] == MemoHash(h, seed, n, round, k)
    {
      DivMod(WordAt(cache[i], 0), n);
      var v: nat := WordAt(cache[i], 0) % n;
      PreviousIndex(i, n);
      var a := cache[(i + n - 1) % n];
      var b := cache[v];
      MemoStep(h, seed, n, round, i, v, a, b);
      cache := cache[i := h(XorBlock(a, b))];
    }
  }

  /** One item of the recurrence, from its neighbour and the item it points to. */
  lemma MemoStep(h: Hash512, seed: seq<Byte>, n: nat, round: nat, i: nat, v: nat, a: Block, b: Block)
    requires i < n && v < n && v == WordAt(MemoHash(h, seed, n, round, i), 0) % n
    requires a == if i > 0 then MemoHash(h, seed, n, round + 1, i - 1) else MemoHash(h, seed, n, round, n - 1)
    requires b == if v < i then MemoHash(h, seed, n, round + 1, v) else MemoHash(h, seed, n, round, v)
    ensures MemoHash(h, seed, n, round + 1, i) == h(XorBlock(a, b))
  {
    hide XorBlock, WordAt;
  }

  lemma PreviousIndex(i: nat, n: nat)
    requires i < n
    ensures (i + n - 1) % n == if i > 0 then i - 1 else n - 1
  {
    if i > 0 {
      DivUnique(i + n - 1, n, 1, i - 1);
    } else {
      DivUnique(n - 1, n, 0, n - 1);
    }
  }

  // ---- dataset items ----

  function FnvItem(m: Item, p: Item): Item { seq(16, (w: nat) requires w < 16 => Fnv(m[w], p[w])) }

  function HashItem(h: Hash512, w: Item): Item { ToWords(h(FromWords(w))) }

  function ZeroBlock(): Block { seq(64, _ => 0) }

  type Light = s: seq<Block> | 0 < |s| < 0x1_0000_0000 witness seq<Block>(1, _ => ZeroBlock())

  function MixAfter(h: Hash512, cache: Light, i: Word, k: nat): Item
    requires k < 0x1_0000_0000
  {
    if k == 0 then
      var w := ToWords(cache[i % |cache|]);
      HashItem(h, w[0 := Xor(w[0], i)])
    else
      var m := MixAfter(h, cache, i, k - 1);
      FnvItem(m, ToWords(cache[Fnv(Xor(i, k - 1), m[(k - 1) % 16]) % |cache|]))
  }

  /** Dataset item `i`: its 16 words. */
  function DatasetItem(h: Hash512, cache: Light, i: Word, parents: Word): Item {
    HashItem(h, MixAfter(h, cache, i, parents))
  }

  /** The word loop over a parent. */
  method FnvLoop(m: Item, pw: Item) returns (mix: Item)
    ensures mix == FnvItem(m, pw)
  {
    hide Fnv;
    mix := m;
    for w := 0 to 16
      invariant forall j :: 0 <= j < 16 ==> mix[j] == if j < w then Fnv(m[j], pw[j]) else m[j]
    {
      mix := mix[w := Fnv(mix[w], pw[w])];
    }
  }

  method CalcDatasetItem(h: Hash512, cache: Light, i: Word, parents: Word) returns (item: Item)
    ensures item == DatasetItem(h, cache, i, parents)
  {
    hide ToWords, FromWords, Xor, Fnv, FnvItem;
    var n := |cache|;
    var mix := ToWords(cache[i % n]);
    mix := mix[0 := Xor(mix[0], i)];
    mix := ToWords(h(FromWords(mix)));
    for k := 0 to parents
      invariant mix == MixAfter(h, cache, i, k)
    {
      var parent := Fnv(Xor(i, k), mix[k % 16]) % n;
      var pw := ToWords(cache[parent]);
      mix := FnvLoop(mix, pw);
    }
    item := ToWords(h(FromWords(mix)));
  }

  /** Row `row` of the DAG: four words of item `row / 4`. */
  function DagRowOf(h: Hash512, cache: Light, parents: Word, row: Word): Row {
    var item := DatasetItem(h, cache, row / 4, parents);
    item[row % 4 * 4..row % 4 * 4 + 4]
  }

  /** Word `k` of the DAG laid out flat, sixteen words an item. */
  function FlatWord(h: Hash512, cache: Light, parents: Word, k: nat): Word
    requires k / 16 < 0x1_0000_0000
  {
    DatasetItem(h, cache, k / 16, parents)[k % 16]
  }

  /** Word `i` of row `row` is word `4 * row + i` of the flat DAG. */
  lemma RowsAreFlat(h: Hash512, cache: Light, parents: Word, row: Word, i: nat)
    requires i < 4
    ensures DagRowOf(h, cache, parents, row)[i] == FlatWord(h, cache, parents, 4 * row + i)
  {
    hide DatasetItem;
    assert (4 * row + i) / 16 == row / 4 && (4 * row + i) % 16 == row % 4 * 4 + i;
  }

  // ---- flat bytes ----

  function Flatten(cache: seq<Block>): (r: seq<Byte>)
    ensures |r| == 64 * |cache|
  {
    if cache == [] then [] else Flatten(cache[..|cache| - 1]) + cache[|cache| - 1]
  }

  function Chunks(bytes: seq<Byte>): seq<Block> {
    if |bytes| < 64 then [] else [bytes[..64]] + Chunks(bytes[64..])
  }

  lemma {:induction false} ChunksAppend(bytes: seq<Byte>, b: Block)
    requires |bytes| % 64 == 0
    ensures Chunks(bytes + b) == Chunks(bytes) + [b]
  {
    if |bytes| < 64 {
      assert bytes == [] && bytes + b == b;
      assert b[..64] == b && b[64..] == [];
    } else {
      assert (bytes + b)[64..] == bytes[64..] + b;
      assert (bytes + b)[..64] == bytes[..64];
      ChunksAppend(bytes[64..], b);
    }
  }

  /** Cutting the flat bytes of a cache into 64-byte items gives the cache back. */
  lemma {:induction false} ChunksFlatten(cache: seq<Block>)
    ensures Chunks(Flatten(cache)) == cache
  {
    if cache != [] {
      var last := |cache| - 1;
      ChunksFlatten(cache[..last]);
      ChunksAppend(Flatten(cache[..last]), cache[last]);
    }
  }
}
