/** An epoch's light cache: sizes, items, and DAG rows served through a memo. */
module LightCaches {
  import opened Words
  import opened Interpreter
  import opened Sizing
  import opened Ethash

  type Seed = s: seq<Byte> | |s| == 32 witness seq(32, _ => 0)

  /** The sizes of an epoch: each the largest one with a prime number of rows below its bound. */
  ghost predicate Sized(epoch: nat, cacheSize: nat, fullSize: nat) {
    && cacheSize % 64 == 0 && cacheSize / 64 % 2 == 1 && LargestPrime(cacheSize / 64, CacheBound(epoch) / 64 - 1)
    && fullSize % 128 == 0 && fullSize / 128 % 2 == 1 && LargestPrime(fullSize / 128, FullBound(epoch) / 128 - 1)
  }

  lemma SizesUnique(epoch: nat, c: nat, f: nat, c': nat, f': nat)
    requires Sized(epoch, c, f) && Sized(epoch, c', f')
    ensures c == c' && f == f'
  {
    hide Prime;
  }

  /** Epochs whose light cache has fewer than 2^32 items and whose sizes fit 64 bits. */
  predicate Supported(epoch: nat) {
    CacheBound(epoch) / 64 < 0x1_0000_0000 && FullBound(epoch) < U64_LIMIT
  }

  method GetSizes(epoch: nat) returns (cacheSize: nat, fullSize: nat)
    requires Supported(epoch)
    ensures Sized(epoch, cacheSize, fullSize)
  {
    hide LargestPrime;
    assert CacheBound(epoch) < U64_LIMIT;
    cacheSize := GetCacheSize(epoch);
    fullSize := GetFullSize(epoch);
  }

  class LightCache {
    const h: Hash512
    const epoch: nat
    const cacheSize: nat
    const fullSize: nat
    const parents: Word
    const seed: Seed
    const cache: Light
    const dagItems: nat
    const dagElements: nat
    var itemCache: map<Word, Item>

    /** Sizes belong to the epoch, and the memo only holds true items. */
    ghost predicate Valid()
      reads this
    {
      && Sized(epoch, cacheSize, fullSize)
      && |cache| == cacheSize / 64
      && dagItems == fullSize / 64 && dagElements == fullSize / 128 / 2
      && forall i :: i in itemCache ==> itemCache[i] == DatasetItem(h, cache, i, parents)
    }

    /** A fresh light cache built from the seed. */
    constructor (h: Hash512, block: nat, epochLength: nat, seed: Seed, parents: Word)
      requires epochLength > 0 && Supported(block / epochLength)
      ensures Valid() && itemCache == map[]
      ensures this.h == h && epoch == block / epochLength && this.seed == seed && this.parents == parents
      ensures forall i :: 0 <= i < |cache| ==> cache[i] == MemoHash(h, seed, |cache|, 3, i)
    {
      hide LargestPrime, MemoHash, Prime, Sized, DatasetItem, Supported;
      var e := block / epochLength;
      var c, f := GetSizes(e);
      SizeRange(e, c, f);
      var items := MkCache(h, c, seed);
      this.h, this.epoch, this.seed, this.parents := h, e, seed, parents;
      this.cacheSize, this.fullSize := c, f;
      this.cache := items;
      dagItems, dagElements := f / 64, f / 128 / 2;
      itemCache := map[];
    }

    /** A light cache reloaded from the bytes of `FlattenCache`. */
    constructor Reloaded(h: Hash512, epoch: nat, cacheSize: nat, fullSize: nat, seed: Seed, parents: Word, items: Light)
      requires Sized(epoch, cacheSize, fullSize) && |items| == cacheSize / 64
      ensures Valid() && itemCache == map[]
      ensures this.h == h && this.epoch == epoch && this.seed == seed && this.parents == parents && cache == items
    {
      this.h, this.epoch, this.seed, this.parents := h, epoch, seed, parents;
      this.cacheSize, this.fullSize, this.cache := cacheSize, fullSize, items;
      dagItems, dagElements := fullSize / 64, fullSize / 128 / 2;
      itemCache := map[];
    }

    method FlattenCache() returns (out: seq<Byte>)
      requires Valid()
      ensures out == Flatten(cache) && |out| == cacheSize
    {
      out := [];
      for k := 0 to |cache|
        invariant out == Flatten(cache[..k])
      {
        assert cache[..k + 1][..k] == cache[..k];
        out := out + cache[k];
      }
      assert cache[..|cache|] == cache;
    }

    method GetDatasetItem(i: Word) returns (item: Item)
      requires Valid()
      modifies this`itemCache
      ensures Valid() && item == DatasetItem(h, cache, i, parents)
    {
      hide DatasetItem, Sized;
      if i in itemCache {
        return itemCache[i];
      }
      item := CalcDatasetItem(h, cache, i, parents);
      itemCache := itemCache[i := item];
    }

    method DagRow(row: Word) returns (r: Row)
      requires Valid()
      modifies this`itemCache
      ensures Valid() && r == DagRowOf(h, cache, parents, row)
    {
      hide DatasetItem, Sized;
      LowTwoBits(row);
      var item := GetDatasetItem(Shr(row, 2));
      var off := And(row, 3) * 4;
      r := [item[off], item[off + 1], item[off + 2], item[off + 3]];
    }

    /** The first 4096 words of the flat DAG. */
    method ProgpowCache() returns (words: CacheWords)
      requires Valid()
      modifies this`itemCache
      ensures Valid()
      ensures forall k :: 0 <= k < 4096 ==> words[k] == FlatWord(h, cache, parents, k)
    {
      hide DatasetItem, Sized, FlatWord, DagRowOf;
      var out: seq<Word> := [];
      for row := 0 to 1024
        invariant Valid() && |out| == 4 * row
        invariant forall k :: 0 <= k < 4 * row ==> out[k] == FlatWord(h, cache, parents, k)
      {
        var r := DagRow(row);
        forall i | 0 <= i < 4
          ensures r[i] == FlatWord(h, cache, parents, 4 * row + i)
        {
          RowsAreFlat(h, cache, parents, row, i);
        }
        out := out + r;
      }
      words := out;
    }
  }

  /** `row >> 2` and `row & 3`. */
  lemma LowTwoBits(row: Word)
    ensures Shr(row, 2) == row / 4 && And(row, 3) == row % 4
  {
    Bits.AndMask(row, 2, 32);
    assert Bits.Pow2(2) == 4;
  }

  lemma SizeRange(epoch: nat, c: nat, f: nat)
    requires Supported(epoch) && Sized(epoch, c, f)
    ensures 64 <= c && c / 64 < 0x1_0000_0000
  {
  }

  lemma OnlySize(epoch: nat, c: nat, f: nat)
    requires Sized(epoch, c, f)
    ensures forall c', f' :: Sized(epoch, c', f') ==> c' == c
  {
    hide Sized;
    forall c', f' | Sized(epoch, c', f')
      ensures c' == c
    {
      SizesUnique(epoch, c, f, c', f');
    }
  }

  /** Accepts exactly the byte strings of this epoch's cache size. */
  method FromPrecomputed(h: Hash512, block: nat, epochLength: nat, seed: Seed, parents: Word, precomputed: seq<Byte>)
    returns (ok: bool, light: LightCache?)
    requires epochLength > 0 && Supported(block / epochLength)
    ensures ok <==> light != null
    ensures ok ==> fresh(light) && light.Valid() && light.h == h && light.epoch == block / epochLength
                   && light.seed == seed && light.parents == parents
                   && light.cacheSize == |precomputed| && light.cache == Chunks(precomputed)
    ensures forall c, f :: Sized(block / epochLength, c, f) ==> (ok <==> |precomputed| == c)
  {
    hide LargestPrime, Chunks, Sized, Supported;
    var epoch := block / epochLength;
    var c, f := GetSizes(epoch);
    SizeRange(epoch, c, f);
    OnlySize(epoch, c, f);
    if |precomputed| != c {
      return false, null;
    }
    var items := ChunksExact(precomputed);
    light := new LightCache.Reloaded(h, epoch, c, f, seed, parents, items);
    ok := true;
  }

  /** `chunks_exact(64)`. */
  method ChunksExact(bytes: seq<Byte>) returns (items: seq<Block>)
    ensures items == Chunks(bytes)
    ensures |items| == |bytes| / 64
  {
    hide Chunks;
    items := [];
    var rest := bytes;
    while |rest| >= 64
      invariant items + Chunks(rest) == Chunks(bytes)
      invariant 64 * |items| + |rest| == |bytes|
    {
      FirstChunk(rest);
      items := items + [rest[..64]];
      rest := rest[64..];
    }
    FirstChunk(rest);
  }

  lemma FirstChunk(bytes: seq<Byte>)
    ensures Chunks(bytes) == if |bytes| < 64 then [] else [bytes[..64]] + Chunks(bytes[64..])
  {
  }

  /** Saving a light cache and reloading it for the same block gives the same cache. */
  method SaveAndReload(light: LightCache, block: nat, epochLength: nat) returns (again: LightCache?)
    requires light.Valid() && epochLength > 0 && light.epoch == block / epochLength && Supported(light.epoch)
    ensures again != null && again.Valid() && again.cache == light.cache && again.seed == light.seed
    ensures again.dagElements == light.dagElements && again.fullSize == light.fullSize
  {
    var bytes := light.FlattenCache();
    var ok;
    assert Sized(light.epoch, light.cacheSize, light.fullSize);
    ok, again := FromPrecomputed(light.h, block, epochLength, light.seed, light.parents, bytes);
    ChunksFlatten(light.cache);
    SizesUnique(light.epoch, light.cacheSize, light.fullSize, again.cacheSize, again.fullSize);
  }
}
