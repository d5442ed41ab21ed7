/** The miner's epoch and period set-up: which kernel is bound to which DAG when a job is searched. */
module Miner {
  import opened Arith
  import opened Words
  import opened Options
  import opened Hash
  import opened Sizing
  import opened Ethash
  import opened LightCaches
  import opened DagGeneration
  import opened CacheFiles
  import opened CacheLog
  import opened DagCache
  import opened DagStream

  const PROGPOW_PERIOD: nat := 3

  // ---- periods and epochs ----

  /** Blocks of one period are always of one epoch exactly when three divides the epoch length; 7500 blocks
      are 2500 periods. */
  lemma PeriodsNestIff(length: Length)
    ensures (forall a: nat, b: nat :: a / PROGPOW_PERIOD == b / PROGPOW_PERIOD ==> a / length == b / length)
            <==> length % 3 == 0
    ensures 7500 == 2500 * PROGPOW_PERIOD
  {
    if length % 3 == 0 {
      forall a: nat, b: nat | a / PROGPOW_PERIOD == b / PROGPOW_PERIOD
        ensures a / length == b / length
      {
        EpochOfPeriod(a, length / 3);
        EpochOfPeriod(b, length / 3);
      }
    } else {
      var a, b := length - 1, length;
      DivUnique(a, length, 0, a);
      DivUnique(b, length, 1, 0);
      assert a / PROGPOW_PERIOD == b / PROGPOW_PERIOD && a / length != b / length;
    }
  }

  /** With `n` periods in an epoch a block's epoch follows from its period. */
  lemma EpochOfPeriod(a: nat, n: nat)
    requires n > 0
    ensures a / (3 * n) == a / 3 / n
  {
    DivMod(a / 3, n);
    MulAssoc(3, n, a / 3 / n);
    DivUnique(a, 3 * n, a / 3 / n, 3 * (a / 3 % n) + a % 3);
  }

  // ---- what an epoch's data are ----

  /** The light cache of a seed, as a value. */
  function TrueCache(h: Hash512, seed: Seed, n: nat): (r: Light)
    requires 0 < n < 0x1_0000_0000
    ensures |r| == n
  {
    var r := seq<Block>(n, (i: nat) requires i < n => MemoHash(h, seed, n, 3, i));
    r
  }

  /** The DAG laid out flat. */
  function FlatDag(h: Hash512, cache: Light, parents: Word, items: nat): (r: seq<Word>)
    requires items < 0x1_0000_0000
    ensures |r| == 16 * items
  {
    seq(16 * items, (k: nat) requires k < 16 * items => FlatWord(h, cache, parents, k))
  }

  /** Blocks in an epoch. */
  type Length = n: nat | n > 0 witness 1

  /** The epochs whose indices fit the shaders' 32 bits. */
  const LAST_EPOCH: nat := 1920

  /** A file's payload is the data of its epoch. */
  ghost predicate TrueFile(h: Hash512, seed: Seed, key: Key, payload: seq<Byte>) {
    forall cs: nat, fs: nat :: Sized(key.epoch, cs, fs) && key.epoch <= LAST_EPOCH ==> TrueData(h, seed, key, payload, cs, fs)
  }

  ghost predicate TrueData(h: Hash512, seed: Seed, key: Key, payload: seq<Byte>, cs: nat, fs: nat)
    requires Sized(key.epoch, cs, fs) && key.epoch <= LAST_EPOCH
  {
    SizesFit(key.epoch, cs, fs);
    var cache := TrueCache(h, seed, cs / 64);
    payload == if key.kind.LightFile? then Flatten(cache) else BytesOf(EpochDag(h, seed, key.parents, key.epoch, cs, fs))
  }

  lemma SizesFit(epoch: nat, cs: nat, fs: nat)
    requires Sized(epoch, cs, fs) && epoch <= LAST_EPOCH
    ensures Supported(epoch) && 0 < cs / 64 && 16 * (cs / 64) <= 0x1_0000_0000 && 0 < fs / 64 && 16 * (fs / 64) <= 0x1_0000_0000
    ensures fs == 64 * (fs / 64) < 0x1_0000_0000_0000_0000
  {
  }

  /** The pool's seed is a function of the epoch; every file of this seed holds its epoch's data. */
  ghost predicate TrueDisk(h: Hash512, seedOf: nat -> Seed, variant: Variant, parents: Word, log: seq<Event>) {
    forall k :: FileFor(seedOf, variant, parents, log, k) ==> TrueFile(h, seedOf(k.epoch), k, Last(log, k).value.payload)
  }

  ghost predicate FileFor(seedOf: nat -> Seed, variant: Variant, parents: Word, log: seq<Event>, k: Key) {
    Last(log, k).Some? && k.variant == variant && k.parents == parents && Seed32(Last(log, k).value.seed) == seedOf(k.epoch)
  }

  /** A light cache object that is the one of its epoch. */
  ghost predicate EpochLight(h: Hash512, seedOf: nat -> Seed, parents: Word, light: LightCache, epoch: nat)
    reads light
  {
    && light.Valid() && light.h == h && light.epoch == epoch && light.seed == seedOf(epoch) && light.parents == parents
    && light.cache == TrueCache(h, seedOf(epoch), |light.cache|)
  }

  lemma SeedUnchanged(seed: Seed)
    ensures Seed32(seed) == seed
  {
    assert seed[..32] == seed;
  }

  /** Saving an epoch's own data keeps every file true, whether or not the save succeeds. */
  lemma SavedKeepsTruth(h: Hash512, seedOf: nat -> Seed, variant: Variant, parents: Word, before: seq<Event>, after: seq<Event>,
                        key: Key, seed: seq<Byte>, payload: seq<Byte>, ok: bool)
    requires TrueDisk(h, seedOf, variant, parents, before) && SaveOutcome(before, after, key, seed, payload, ok)
    requires TrueFile(h, seedOf(key.epoch), key, payload)
    ensures TrueDisk(h, seedOf, variant, parents, after)
  {
    hide TrueFile, Last, Present, Seed32;
    forall k | FileFor(seedOf, variant, parents, after, k)
      ensures TrueFile(h, seedOf(k.epoch), k, Last(after, k).value.payload)
    {
      if !(ok && k == key) {
        assert FileFor(seedOf, variant, parents, before, k);
      }
    }
  }

  /** What a load finds on a true disk is the epoch's data. */
  lemma FoundIsTrue(h: Hash512, seedOf: nat -> Seed, variant: Variant, parents: Word, log: seq<Event>, key: Key, cs: nat, fs: nat)
    requires TrueDisk(h, seedOf, variant, parents, log) && FileFor(seedOf, variant, parents, log, key)
    requires Sized(key.epoch, cs, fs) && key.epoch <= LAST_EPOCH
    ensures TrueData(h, seedOf(key.epoch), key, Last(log, key).value.payload, cs, fs)
  {
    hide TrueData, Last, Sized, Seed32;
    assert TrueFile(h, seedOf(key.epoch), key, Last(log, key).value.payload);
  }

  lemma LightIsTrueFile(h: Hash512, seedOf: nat -> Seed, parents: Word, light: LightCache, epoch: Word, key: Key)
    requires EpochLight(h, seedOf, parents, light, epoch) && key.epoch == epoch && key.kind == LightFile
    ensures TrueFile(h, seedOf(epoch), key, Flatten(light.cache))
  {
    hide LargestPrime, TrueCache;
    forall cs: nat, fs: nat | Sized(epoch, cs, fs) && epoch <= LAST_EPOCH
      ensures TrueData(h, seedOf(epoch), key, Flatten(light.cache), cs, fs)
    {
      SizesUnique(epoch, cs, fs, light.cacheSize, light.fullSize);
    }
  }

  lemma DagIsTrueFile(h: Hash512, seedOf: nat -> Seed, parents: Word, light: LightCache, epoch: Word, key: Key)
    requires EpochLight(h, seedOf, parents, light, epoch) && key.epoch == epoch && key.kind == DagFile && key.parents == parents
    requires light.dagItems < 0x1_0000_0000
    ensures TrueFile(h, seedOf(epoch), key, BytesOf(FlatDag(h, light.cache, parents, light.dagItems)))
  {
    hide LargestPrime, TrueCache, FlatDag, BytesOf;
    forall cs: nat, fs: nat | Sized(epoch, cs, fs) && epoch <= LAST_EPOCH
      ensures TrueData(h, seedOf(epoch), key, BytesOf(FlatDag(h, light.cache, parents, light.dagItems)), cs, fs)
    {
      SizesUnique(epoch, cs, fs, light.cacheSize, light.fullSize);
    }
  }

  /** A cache of the right size, rebuilt from true bytes, is the epoch's. */
  lemma ChunksAreTrue(h: Hash512, seed: Seed, key: Key, bytes: seq<Byte>, cs: nat, fs: nat)
    requires key.kind == LightFile && Sized(key.epoch, cs, fs) && key.epoch <= LAST_EPOCH
    requires TrueData(h, seed, key, bytes, cs, fs)
    ensures 0 < cs / 64 < 0x1_0000_0000 && Chunks(bytes) == TrueCache(h, seed, cs / 64)
  {
    SizesFit(key.epoch, cs, fs);
    ChunksFlatten(TrueCache(h, seed, cs / 64));
    hide Sized, TrueCache, Chunks;
  }

  lemma CacheSizeFits(light: LightCache)
    requires light.Valid() && light.epoch <= LAST_EPOCH
    ensures 0 < light.dagItems && 16 * light.dagItems <= 0x1_0000_0000 && 16 * |light.cache| <= 0x1_0000_0000
    ensures light.fullSize == 64 * light.dagItems
  {
    SizesFit(light.epoch, light.cacheSize, light.fullSize);
    hide LargestPrime;
  }

  /** A compiled search kernel and the buffer it is bound to. */
  datatype Pipe = Pipe(period: nat, dagElements: nat, variant: Variant, dag: array<Word>)

  /** How setting up an epoch ends: done, no device buffer, or a buffer without its DAG. */
  datatype Setup = Ready | NoBuffer | NoDag

  /** Which calls of the device succeed while a job is set up. */
  datatype Fate = Fate(allocate: bool, generate: bool, compile: bool)

  class VulkanMiner {
    const h: Hash512
    const seedOf: nat -> Seed
    const variant: Variant
    const epochLength: Length
    const parents: Word
    const disk: Directory?
    const stamp: string -> Option<int>
    /** How long generating dispatches take, and what newly allocated device memory holds. */
    const seconds: nat -> real
    const garbage: nat -> Word

    var epoch: Option<nat>
    var light: LightCache?
    var dagBuf: array?<Word>
    var dagElements: Option<nat>
    var period: Option<nat>
    var searchPipe: Option<Pipe>
    /** How the last set-up that was not skipped ended. */
    ghost var lastSetup: Option<Setup>

    ghost predicate DiskValid()
      reads this, disk
    {
      disk != null ==> disk.Valid() && TrueDisk(h, seedOf, variant, parents, disk.log)
    }

    /** The light cache and the entry count belong to the epoch the fields name. */
    ghost predicate NamesTrue()
      reads this, light
    {
      && (epoch.Some? <==> light != null)
      && (epoch.Some? ==>
            && epoch.value <= LAST_EPOCH && EpochLight(h, seedOf, parents, light, epoch.value)
            && light.dagItems < 0x1_0000_0000 && dagElements == Some(light.dagElements))
    }

    /** The buffer holds the DAG of the light cache. */
    ghost predicate Filled()
      reads this, light, dagBuf
    {
      && light != null && dagBuf != null && light.dagItems < 0x1_0000_0000
      && dagBuf[..] == FlatDag(h, light.cache, parents, light.dagItems)
    }

    /** A kernel kept for a period is that period's, compiled for this DAG and bound to this buffer. */
    ghost predicate KernelBound()
      reads this
    {
      period.Some? && searchPipe.Some? ==>
        && dagBuf != null && dagElements.Some?
        && searchPipe.value == Pipe(period.value, dagElements.value, variant, dagBuf)
    }

    /** What every call keeps. Only after a generation that failed may the buffer lack its DAG. */
    ghost predicate Valid()
      reads this, light, dagBuf, disk
    {
      && DiskValid() && NamesTrue()
      && (light != null && dagBuf != null && lastSetup != Some(NoDag) ==> Filled() && KernelBound())
    }

    /** The buffer holds the DAG of epoch `e`, which the fields name. */
    ghost predicate Holds(e: nat)
      reads this, light, dagBuf
    {
      epoch == Some(e) && NamesTrue() && Filled()
    }

    /** A search would run the period's kernel, compiled for the epoch's DAG and bound to a buffer that
        holds it. */
    ghost predicate Bound(e: nat, p: nat)
      reads this, light, dagBuf
    {
      Holds(e) && searchPipe == Some(Pipe(p, light.dagElements, variant, dagBuf))
    }

    predicate NamesEpoch(e: nat)
      reads this
    {
      epoch == Some(e) && dagBuf != null && light != null
    }

    constructor (h: Hash512, seedOf: nat -> Seed, variant: Variant, epochLength: Length, disk: Directory?,
                 stamp: string -> Option<int>, seconds: nat -> real, garbage: nat -> Word)
      requires disk != null ==>
        disk.Valid() && TrueDisk(h, seedOf, variant, if variant.Kawpow? then 512 else 256, disk.log)
      ensures Valid() && epoch == None && lastSetup == None
      ensures this.h == h && this.seedOf == seedOf && this.variant == variant && this.epochLength == epochLength
      ensures this.disk == disk && this.garbage == garbage
      ensures parents == if variant.Kawpow? then 512 else 256
    {
      this.h, this.seedOf, this.variant, this.epochLength := h, seedOf, variant, epochLength;
      this.disk, this.stamp, this.seconds, this.garbage := disk, stamp, seconds, garbage;
      parents := if variant.Kawpow? then 512 else 256;
      epoch, light, dagBuf, dagElements, period, searchPipe := None, null, null, None, None, None;
      lastSetup := None;
    }

    function KeyOf(kind: Kind, e: nat): Key
      requires e < 0x1_0000_0000
    {
      Key(kind, variant, e, parents)
    }

    // ---- the light cache ----

    /** A file of the right size holds the epoch's light cache. */
    method ReloadLight(block: nat, seed: Seed, key: Key) returns (lc: LightCache?)
      requires disk != null && DiskValid() && block / epochLength <= LAST_EPOCH
      requires seed == seedOf(block / epochLength) && key == KeyOf(LightFile, block / epochLength)
      modifies disk`calls
      ensures DiskValid()
      ensures lc != null ==> fresh(lc) && EpochLight(h, seedOf, parents, lc, block / epochLength)
    {
      hide TrueDisk, Sized, Legal, Replay, Read, Last, Present, Chunks, TrueCache, TrueData;
      var bytes := LoadLight(disk, key, seed);
      if bytes.None? {
        return null;
      }
      ReadFindsLastCommit(disk.log, key, seed);
      SeedUnchanged(seed);
      var ok;
      assert Supported(block / epochLength);
      ok, lc := FromPrecomputed(h, block, epochLength, seed, parents, bytes.value);
      if !ok {
        return null;
      }
      FoundIsTrue(h, seedOf, variant, parents, disk.log, key, lc.cacheSize, lc.fullSize);
      ChunksAreTrue(h, seed, key, bytes.value, lc.cacheSize, lc.fullSize);
    }

    method BuildLight(block: nat, seed: Seed) returns (lc: LightCache)
      requires block / epochLength <= LAST_EPOCH && seed == seedOf(block / epochLength)
      ensures fresh(lc) && EpochLight(h, seedOf, parents, lc, block / epochLength)
    {
      hide Sized, MemoHash;
      assert Supported(block / epochLength);
      lc := new LightCache(h, block, epochLength, seed, parents);
    }

    /** Reload from disk if there is a file that fits, else build and save. */
    method PrepareLight(block: nat, seed: Seed) returns (lc: LightCache)
      requires DiskValid() && block / epochLength <= LAST_EPOCH && seed == seedOf(block / epochLength)
      modifies disk
      ensures DiskValid() && fresh(lc) && EpochLight(h, seedOf, parents, lc, block / epochLength)
    {
      hide TrueDisk, Sized, Legal, Replay, SaveOutcome, TrueFile, TrueCache;
      var key := KeyOf(LightFile, block / epochLength);
      if disk != null {
        var loaded := ReloadLight(block, seed, key);
        if loaded != null {
          return loaded;
        }
      }
      lc := BuildLight(block, seed);
      if disk != null {
        var bytes := lc.FlattenCache();
        ghost var before := disk.log;
        CacheSizeFits(lc);
        var saved := SaveLight(disk, key, seed, bytes, stamp);
        LightIsTrueFile(h, seedOf, parents, lc, block / epochLength, key);
        SavedKeepsTruth(h, seedOf, variant, parents, before, disk.log, key, seed, bytes, saved);
      }
    }

    // ---- the DAG ----

    /** Reload from disk if the header promises the full size. */
    method ReloadDag(lc: LightCache, e: nat, seed: Seed, dag: array<Word>) returns (ok: bool)
      requires disk != null && DiskValid() && e <= LAST_EPOCH && seed == seedOf(e)
      requires EpochLight(h, seedOf, parents, lc, e) && dag.Length == 16 * lc.dagItems && lc.dagItems < 0x1_0000_0000
      modifies disk`calls, dag
      ensures DiskValid()
      ensures ok ==> dag[..] == FlatDag(h, lc.cache, parents, lc.dagItems)
    {
      hide TrueDisk, Sized, Legal, Replay, Last, Chunks, TrueCache, FlatDag, BytesOf, WordsOfBytes, Promises, PayloadBytes;
      var key := KeyOf(DagFile, e);
      CacheSizeFits(lc);
      var has := HasDag(disk, key, seed, lc.fullSize);
      if !has {
        return false;
      }
      ok := LoadDag(disk, key, dag);
      if ok {
        LoadedIsLastSaved(disk.log, key, seed, dag[..]);
        SeedUnchanged(seed);
        FoundIsTrue(h, seedOf, variant, parents, disk.log, key, lc.cacheSize, lc.fullSize);
        WordsOfBytesOf(FlatDag(h, lc.cache, parents, lc.dagItems));
      }
    }

    /** Generation on the device; a failure leaves the buffer as it was. */
    method Generate(lc: LightCache, dag: array<Word>, succeeds: bool)
      requires lc.Valid() && lc.h == h && lc.epoch <= LAST_EPOCH && lc.parents == parents
      requires dag.Length == 16 * lc.dagItems && lc.dagItems < 0x1_0000_0000
      modifies dag
      ensures dag[..] == if succeeds then FlatDag(h, lc.cache, parents, lc.dagItems) else old(dag[..])
    {
      hide LightCache.Valid, WordsOfBytes, FlatWord, Plan;
      CacheSizeFits(lc);
      var bytes := lc.FlattenCache();
      if succeeds {
        var kernel := Kernel(h, lc.cache, lc.dagItems, parents);
        FlattenUploads(kernel);
        var queue := new Queue();
        GenerateDag(kernel, WordsOfBytes(bytes), dag, queue, seconds);
        assert dag[..] == FlatDag(h, lc.cache, parents, lc.dagItems);
      }
    }

    /** Load, or generate and save. */
    method FillDag(lc: LightCache, e: nat, seed: Seed, dag: array<Word>, generates: bool) returns (ok: bool)
      requires DiskValid() && e <= LAST_EPOCH && seed == seedOf(e)
      requires EpochLight(h, seedOf, parents, lc, e) && dag.Length == 16 * lc.dagItems && 0 < lc.dagItems < 0x1_0000_0000
      modifies disk, dag
      ensures DiskValid()
      ensures generates ==> ok
      ensures ok ==> dag[..] == FlatDag(h, lc.cache, parents, lc.dagItems)
      ensures disk == null && !generates ==> !ok && dag[..] == old(dag[..])
    {
      hide TrueDisk, Sized, Legal, Replay, SaveOutcome, TrueFile, TrueCache, FlatDag, BytesOf;
      if disk != null {
        var loaded := ReloadDag(lc, e, seed, dag);
        if loaded {
          return true;
        }
      }
      Generate(lc, dag, generates);
      if generates && disk != null {
        var key := KeyOf(DagFile, e);
        ghost var before := disk.log;
        CacheSizeFits(lc);
        var saved := SaveDag(disk, key, seed, dag, stamp);
        DagIsTrueFile(h, seedOf, parents, lc, e, key);
        SavedKeepsTruth(h, seedOf, variant, parents, before, disk.log, key, seed, BytesOf(dag[..]), saved);
      }
      ok := generates;
    }

    // ---- one job's set-up ----

    /** A device buffer, with whatever its memory held. */
    method MakeBuffer(n: nat, succeeds: bool) returns (dag: array?<Word>)
      ensures dag != null <==> succeeds
      ensures dag != null ==> fresh(dag) && dag.Length == n && forall k :: 0 <= k < n ==> dag[k] == garbage(k)
    {
      if !succeeds {
        return null;
      }
      var g := garbage;
      var words := new Word[n]((k: nat) requires k < n => g(k));
      dag := words;
    }

    /** Light cache, buffer, DAG, and only then the fields. A failure on the way leaves the new buffer
        under the old names. */
    method SetUpEpoch(block: nat, seed: Seed, fate: Fate) returns (result: Setup)
      requires Valid() && block / epochLength <= LAST_EPOCH && seed == seedOf(block / epochLength)
      modifies this`epoch, this`light, this`dagBuf, this`dagElements, this`period, this`lastSetup, disk
      ensures Valid() && lastSetup == Some(result)
      ensures result.NoBuffer? <==> !fate.allocate
      ensures fate.allocate && fate.generate ==> result.Ready?
      ensures result.Ready? ==> Holds(block / epochLength) && period == None
      ensures result.NoBuffer? ==> dagBuf == null && epoch == old(epoch) && light == old(light) && period == old(period)
      ensures result.NoDag? ==> dagBuf != null && fresh(dagBuf) && epoch == old(epoch) && light == old(light)
      ensures disk == null && fate.allocate && !fate.generate ==> result.NoDag? && dagBuf.Length > 0 && dagBuf[0] == garbage(0)
    {
      hide TrueDisk, Directory.Valid, FlatDag, TrueCache, Sized, EpochLight;
      var e := block / epochLength;
      var lc := PrepareLight(block, seed);
      assert EpochLight(h, seedOf, parents, lc, e);
      ItemsFit(h, seedOf, parents, lc, e);
      result := SetUpDag(lc, e, seed, fate);
    }

    /** The buffer, then the DAG, then the fields. */
    method SetUpDag(lc: LightCache, e: nat, seed: Seed, fate: Fate) returns (result: Setup)
      requires Valid() && e <= LAST_EPOCH && seed == seedOf(e)
      requires EpochLight(h, seedOf, parents, lc, e) && 0 < lc.dagItems < 0x1_0000_0000
      modifies this`epoch, this`light, this`dagBuf, this`dagElements, this`period, this`lastSetup, disk
      ensures Valid() && lastSetup == Some(result)
      ensures result.NoBuffer? <==> !fate.allocate
      ensures fate.allocate && fate.generate ==> result.Ready?
      ensures result.Ready? ==> Holds(e) && period == None
      ensures result.NoBuffer? ==> dagBuf == null && epoch == old(epoch) && light == old(light) && period == old(period)
      ensures result.NoDag? ==> dagBuf != null && fresh(dagBuf) && epoch == old(epoch) && light == old(light)
      ensures disk == null && fate.allocate && !fate.generate ==> result.NoDag? && dagBuf.Length > 0 && dagBuf[0] == garbage(0)
    {
      hide TrueDisk, Directory.Valid, FlatDag, TrueCache, Sized, EpochLight;
      dagBuf := null;
      var dag := MakeBuffer(16 * lc.dagItems, fate.allocate);
      if dag == null {
        lastSetup := Some(NoBuffer);
        return NoBuffer;
      }
      dagBuf := dag;
      var filled := FillDag(lc, e, seed, dag, fate.generate);
      if !filled {
        assert disk == null ==> dag[..][0] == garbage(0);
        lastSetup := Some(NoDag);
        return NoDag;
      }
      Adopt(lc, e);
      return Ready;
    }

    /** The fields name the epoch; the kernel has to be compiled anew. */
    method Adopt(lc: LightCache, e: nat)
      requires DiskValid() && e <= LAST_EPOCH && EpochLight(h, seedOf, parents, lc, e) && lc.dagItems < 0x1_0000_0000
      requires dagBuf != null && dagBuf[..] == FlatDag(h, lc.cache, parents, lc.dagItems)
      modifies this`epoch, this`light, this`dagElements, this`period, this`lastSetup
      ensures Valid() && Holds(e) && period == None && lastSetup == Some(Ready)
    {
      hide TrueDisk, Directory.Valid, FlatDag, EpochLight;
      dagElements, light, epoch, period := Some(lc.dagElements), lc, Some(e), None;
      lastSetup := Some(Ready);
    }

    /** Does nothing when the fields already name the epoch. An epoch that is accepted holds its DAG
        whenever the last set-up that was not skipped did not end without a DAG; if it did, then only
        if the buffer happens to hold the same words. */
    method EnsureEpoch(block: nat, given: Option<Seed>, fate: Fate) returns (result: Setup)
      requires Valid() && block / epochLength <= LAST_EPOCH
      requires given.Some? ==> given.value == seedOf(block / epochLength)
      modifies this`epoch, this`light, this`dagBuf, this`dagElements, this`period, this`lastSetup, disk
      ensures Valid()
      ensures old(NamesEpoch(block / epochLength)) ==>
                && result.Ready? && epoch == old(epoch) && light == old(light) && dagBuf == old(dagBuf)
                && dagElements == old(dagElements) && period == old(period) && lastSetup == old(lastSetup)
      ensures !old(NamesEpoch(block / epochLength)) ==>
                && lastSetup == Some(result) && (result.NoBuffer? <==> !fate.allocate)
                && (fate.allocate && fate.generate ==> result.Ready?)
      ensures result.Ready? ==> NamesEpoch(block / epochLength)
      ensures result.Ready? ==>
                (Holds(block / epochLength) <==> lastSetup != Some(NoDag) || Filled())
      ensures result.Ready? && !old(NamesEpoch(block / epochLength)) ==> period == None
      ensures result.NoBuffer? ==> dagBuf == null && epoch == old(epoch) && light == old(light) && period == old(period)
      ensures result.NoDag? ==> dagBuf != null && fresh(dagBuf) && epoch == old(epoch) && light == old(light)
      ensures !old(NamesEpoch(block / epochLength)) && disk == null && fate.allocate && !fate.generate ==>
                result.NoDag? && dagBuf.Length > 0 && dagBuf[0] == garbage(0)
    {
      hide TrueDisk, Directory.Valid, FlatDag, TrueCache, Sized, EpochLight;
      var e := block / epochLength;
      if epoch == Some(e) && dagBuf != null && light != null {
        return Ready;
      }
      var effSeed := if given.Some? then given.value else seedOf(e);
      result := SetUpEpoch(block, effSeed, fate);
    }

    /** A kernel for the block's period, bound to the current buffer; compiling may fail. */
    method EnsurePeriod(block: nat, fate: Fate) returns (ok: bool)
      requires Valid() && dagBuf != null
      modifies this`period, this`searchPipe
      ensures Valid()
      ensures var kept := old(period) == Some(block / PROGPOW_PERIOD) && old(searchPipe).Some?;
              && ok == (kept || (dagElements.Some? && fate.compile))
              && (kept || !ok ==> period == old(period) && searchPipe == old(searchPipe))
      ensures ok ==> period == Some(block / PROGPOW_PERIOD) && searchPipe.Some?
      ensures ok && light != null && lastSetup != Some(NoDag) ==> Bound(epoch.value, block / PROGPOW_PERIOD)
    {
      hide EpochLight, FlatDag, TrueDisk, Directory.Valid;
      var p := block / PROGPOW_PERIOD;
      if period == Some(p) && searchPipe.Some? {
        return true;
      }
      if dagElements.None? {
        return false;
      }
      ok := fate.compile;
      if ok {
        searchPipe := Some(Pipe(p, dagElements.value, variant, dagBuf));
        period := Some(p);
      }
    }

    /** The two set-ups of a job, the second only after the first. */
    method PrepareJob(block: nat, given: Option<Seed>, fate: Fate) returns (ok: bool)
      requires Valid() && block / epochLength <= LAST_EPOCH
      requires given.Some? ==> given.value == seedOf(block / epochLength)
      modifies this, disk
      ensures Valid()
      ensures ok ==> NamesEpoch(block / epochLength) && period == Some(block / PROGPOW_PERIOD) && searchPipe.Some?
      ensures ok && lastSetup != Some(NoDag) ==> Bound(block / epochLength, block / PROGPOW_PERIOD)
      ensures fate.generate ==>
                && (NamesOf(this), ok) == AfterJob(old(NamesOf(this)), block / epochLength, block / PROGPOW_PERIOD, fate)
                && (old(lastSetup) != Some(NoDag) ==> lastSetup != Some(NoDag))
    {
      hide TrueDisk, Directory.Valid, EpochLight, FlatDag, DiskValid, Filled;
      var result := EnsureEpoch(block, given, fate);
      ok := false;
      if result.Ready? {
        ok := EnsurePeriod(block, fate);
      }
    }
  }

  lemma ItemsFit(h: Hash512, seedOf: nat -> Seed, parents: Word, light: LightCache, epoch: nat)
    requires EpochLight(h, seedOf, parents, light, epoch) && epoch <= LAST_EPOCH
    ensures 0 < light.dagItems < 0x1_0000_0000
  {
    CacheSizeFits(light);
    hide LightCache.Valid;
  }

  // ---- whole runs ----

  /** What decides whether a set-up succeeds when generation does: the names in the fields. */
  datatype Names = Names(epoch: Option<nat>, buffer: bool, period: Option<nat>, kernel: bool)

  function NamesOf(m: VulkanMiner): Names
    reads m
  {
    Names(m.epoch, m.dagBuf != null, m.period, m.searchPipe.Some?)
  }

  /** The names after a job of epoch `e` and period `p`, and whether its set-ups succeed. */
  function AfterJob(n: Names, e: nat, p: nat, fate: Fate): (Names, bool) {
    var named := n.epoch == Some(e) && n.buffer;
    if !named && !fate.allocate then (n.(buffer := false), false)
    else
      var n1 := if named then n else Names(Some(e), true, None, n.kernel);
      if n1.period == Some(p) && n1.kernel then (n1, true)
      else if fate.compile then (n1.(period := Some(p), kernel := true), true)
      else (n1, false)
  }

  /** A job of the pool. */
  datatype Job = Job(block: nat, seed: Seed)

  /** The names after the first `n` jobs. */
  function AfterJobs(start: Names, epochLength: Length, jobs: seq<Job>, fates: seq<Fate>, n: nat): Names
    requires n <= |jobs| == |fates|
  {
    if n == 0 then start
    else
      var job := jobs[n - 1];
      AfterJob(AfterJobs(start, epochLength, jobs, fates, n - 1), job.block / epochLength, job.block / PROGPOW_PERIOD, fates[n - 1]).0
  }

  /** Whether the set-ups of job `i` succeed. */
  function Succeeds(start: Names, epochLength: Length, jobs: seq<Job>, fates: seq<Fate>, i: nat): bool
    requires i < |jobs| == |fates|
  {
    var job := jobs[i];
    AfterJob(AfterJobs(start, epochLength, jobs, fates, i), job.block / epochLength, job.block / PROGPOW_PERIOD, fates[i]).1
  }

  /** A search that was dispatched: the kernel, and what the buffer bound to it held. */
  datatype Search = Search(job: Job, pipe: Pipe, words: seq<Word>)

  /** The kernel was compiled for the job's period and its epoch's DAG size, and ran over that DAG. */
  ghost predicate RightKernel(h: Hash512, seedOf: nat -> Seed, variant: Variant, parents: Word, epoch: nat, s: Search) {
    && epoch <= LAST_EPOCH && s.pipe.period == s.job.block / PROGPOW_PERIOD && s.pipe.variant == variant
    && forall cs: nat, fs: nat :: Sized(epoch, cs, fs) ==>
         s.pipe.dagElements == fs / 128 / 2 && s.words == EpochDag(h, seedOf(epoch), parents, epoch, cs, fs)
  }

  /** The flat DAG of an epoch and a seed. */
  ghost function EpochDag(h: Hash512, seed: Seed, parents: Word, epoch: nat, cs: nat, fs: nat): seq<Word>
    requires Sized(epoch, cs, fs) && epoch <= LAST_EPOCH
  {
    SizesFit(epoch, cs, fs);
    FlatDag(h, TrueCache(h, seed, cs / 64), parents, fs / 64)
  }

  /** What a bound kernel reads is the epoch's DAG. */
  lemma BoundIsRight(m: VulkanMiner, job: Job, epoch: nat, s: Search)
    requires m.Bound(epoch, job.block / PROGPOW_PERIOD)
    requires s.job == job && Some(s.pipe) == m.searchPipe && s.words == m.searchPipe.value.dag[..]
    ensures RightKernel(m.h, m.seedOf, m.variant, m.parents, epoch, s)
  {
    hide LargestPrime, TrueCache, FlatDag;
    forall cs: nat, fs: nat | Sized(epoch, cs, fs)
      ensures cs == m.light.cacheSize && fs == m.light.fullSize
    {
      SizesUnique(epoch, cs, fs, m.light.cacheSize, m.light.fullSize);
    }
  }

  /** The mining loop over a run of jobs: set up, and search when both set-ups succeed. Disk calls may
      fail anywhere; `fates` says which device calls do. After every run the fields are valid, and if
      the last job was searched, its kernel is bound to a buffer with its epoch's DAG unless a failed
      generation was the last set-up. When generation does not fail, the jobs that are searched are
      exactly those whose allocations and compilations succeed, each on the right kernel. */
  method Serve(m: VulkanMiner, jobs: seq<Job>, fates: seq<Fate>) returns (searches: seq<Option<Search>>)
    requires m.Valid() && |fates| == |jobs|
    requires forall j :: j in jobs ==> j.block / m.epochLength <= LAST_EPOCH && j.seed == m.seedOf(j.block / m.epochLength)
    modifies m, m.disk
    ensures m.Valid() && |searches| == |jobs|
    ensures jobs != [] ==> Reflects(m, jobs[|jobs| - 1], searches[|jobs| - 1])
    ensures old(m.lastSetup) != Some(NoDag) && (forall f :: f in fates ==> f.generate) ==>
              && m.lastSetup != Some(NoDag)
              && NamesOf(m) == AfterJobs(old(NamesOf(m)), m.epochLength, jobs, fates, |jobs|)
              && forall i :: 0 <= i < |jobs| ==> RightAt(m, old(NamesOf(m)), jobs, fates, i, searches[i])
  {
    hide VulkanMiner.Valid, NamesOf, AfterJob, AfterJobs, RightAt, Reflects, RightKernel;
    searches := [];
    ghost var sound := m.lastSetup != Some(NoDag) && forall f :: f in fates ==> f.generate;
    ghost var start := NamesOf(m);
    NoJobs(start, m.epochLength, jobs, fates);
    for n := 0 to |jobs|
      invariant m.Valid() && |searches| == n
      invariant n > 0 ==> Reflects(m, jobs[n - 1], searches[n - 1])
      invariant sound ==> m.lastSetup != Some(NoDag) && NamesOf(m) == AfterJobs(start, m.epochLength, jobs, fates, n)
      invariant sound ==> forall i :: 0 <= i < n ==> RightAt(m, start, jobs, fates, i, searches[i])
    {
      assert jobs[n] in jobs && fates[n] in fates;
      ghost var before := NamesOf(m);
      var search := ServeOne(m, jobs[n], fates[n]);
      if sound {
        ServedNext(m, start, jobs, fates, n, before, NamesOf(m), search);
      }
      searches := searches + [search];
    }
  }

  /** Job `i` is searched exactly when its set-ups succeed, and then on the right kernel. */
  ghost predicate RightAt(m: VulkanMiner, start: Names, jobs: seq<Job>, fates: seq<Fate>, i: nat, search: Option<Search>)
    requires i < |jobs| == |fates|
  {
    && (search.Some? <==> Succeeds(start, m.epochLength, jobs, fates, i))
    && (search.Some? ==>
          && search.value.job == jobs[i]
          && RightKernel(m.h, m.seedOf, m.variant, m.parents, jobs[i].block / m.epochLength, search.value))
  }

  lemma NoJobs(start: Names, epochLength: Length, jobs: seq<Job>, fates: seq<Fate>)
    requires |jobs| == |fates|
    ensures AfterJobs(start, epochLength, jobs, fates, 0) == start
  {
  }

  lemma ServedNext(m: VulkanMiner, start: Names, jobs: seq<Job>, fates: seq<Fate>, n: nat, before: Names, after: Names,
                   search: Option<Search>)
    requires n < |jobs| == |fates| && before == AfterJobs(start, m.epochLength, jobs, fates, n)
    requires (after, search.Some?)
             == AfterJob(before, jobs[n].block / m.epochLength, jobs[n].block / PROGPOW_PERIOD, fates[n])
    requires search.Some? ==>
      && search.value.job == jobs[n]
      && RightKernel(m.h, m.seedOf, m.variant, m.parents, jobs[n].block / m.epochLength, search.value)
    ensures RightAt(m, start, jobs, fates, n, search) && after == AfterJobs(start, m.epochLength, jobs, fates, n + 1)
  {
    hide AfterJob, RightKernel;
  }

  /** A search of a job, as the miner's fields show it: the kernel in place and what its buffer holds. */
  ghost predicate Reflects(m: VulkanMiner, job: Job, search: Option<Search>)
    reads m, m.light, m.dagBuf, if search.Some? then {search.value.pipe.dag} else {}
  {
    search.Some? ==>
      && search.value.job == job && m.searchPipe == Some(search.value.pipe) && search.value.words == search.value.pipe.dag[..]
      && m.NamesEpoch(job.block / m.epochLength)
      && (m.lastSetup != Some(NoDag) ==> m.Bound(job.block / m.epochLength, job.block / PROGPOW_PERIOD))
  }

  /** One job: set up, and search when both set-ups succeed. */
  method ServeOne(m: VulkanMiner, job: Job, fate: Fate) returns (search: Option<Search>)
    requires m.Valid() && job.block / m.epochLength <= LAST_EPOCH && job.seed == m.seedOf(job.block / m.epochLength)
    modifies m, m.disk
    ensures m.Valid() && Reflects(m, job, search)
    ensures fate.generate ==>
              && (NamesOf(m), search.Some?)
                 == AfterJob(old(NamesOf(m)), job.block / m.epochLength, job.block / PROGPOW_PERIOD, fate)
              && (old(m.lastSetup) != Some(NoDag) ==> m.lastSetup != Some(NoDag))
    ensures search.Some? ==> search.value.job == job
    ensures m.lastSetup != Some(NoDag) && search.Some? ==>
              RightKernel(m.h, m.seedOf, m.variant, m.parents, job.block / m.epochLength, search.value)
  {
    hide VulkanMiner.Valid, VulkanMiner.Bound, RightKernel, AfterJob, NamesOf;
    var ok := m.PrepareJob(job.block, Some(job.seed), fate);
    search := None;
    if ok {
      var pipe := m.searchPipe.value;
      search := Some(Search(job, pipe, pipe.dag[..]));
      if m.lastSetup != Some(NoDag) {
        BoundIsRight(m, job, job.block / m.epochLength, search.value);
      }
    }
  }

  // ---- the failing case ----

  function Ones(): Block { seq(64, _ => 1) }
  function ZeroSeed(): Seed { seq(32, _ => 0) }

  /** With a constant hash the first word of every DAG is 0x01010101. */
  lemma FirstWordOfOnes(h: Hash512, cache: Light, parents: Word, items: nat)
    requires (forall s :: h(s) == Ones()) && 0 < items < 0x1_0000_0000
    ensures FlatDag(h, cache, parents, items)[0] == 0x0101_0101
  {
    hide MixAfter, FromWords;
    assert FlatWord(h, cache, parents, 0) == ToWords(Ones())[0];
  }

  /** Generation fails for epoch 1; a job of epoch 0 then finds its names in place and is searched on
      the unfilled buffer. */
  method StaleBuffer() returns (m: VulkanMiner, result: Setup)
    ensures fresh(m) && m.Valid() && result.Ready? && m.epoch == Some(0) && m.lastSetup == Some(NoDag) && !m.Holds(0)
  {
    hide MemoHash, DatasetItem, Sized, TrueDisk;
    var h: Hash512 := (s: seq<Byte>) => Ones();
    m := new VulkanMiner(h, (e: nat) => ZeroSeed(), Kawpow, 7500, null, (n: string) => None, (t: nat) => 0.0, (k: nat) => 0);
    var first := m.EnsureEpoch(0, None, Fate(true, true, true));
    var second := m.EnsureEpoch(7500, None, Fate(true, false, true));
    assert second == NoDag;
    result := m.EnsureEpoch(0, None, Fate(true, true, true));
    assert m.dagBuf[..][0] == 0;
    if m.Holds(0) {
      CacheSizeFits(m.light);
      FirstWordOfOnes(h, m.light.cache, m.parents, m.light.dagItems);
    }
  }
}
