/** GPU and host compute the same hash: a solution the shader reports passes the host's recheck. */
module Agreement {
  import opened Words
  import opened Options
  import opened ProgPow
  import opened Interpreter
  import opened Sizing
  import opened Ethash
  import opened LightCaches
  import opened Hash
  import opened Reference
  import Simt
  import Shader
  import Render
  import GlslText
  import Refinement
  import GlslExec
  import DagAccess
  import Preload

  /** A DAG buffer in which every word is the word of the epoch's dataset. */
  ghost predicate HoldsDag(gDag: seq<Word>, light: LightCache)
    reads light
  {
    && light.Valid() && |gDag| == 16 * light.dagItems && 16 * light.dagItems <= 0x1_0000_0000
    && forall k :: 0 <= k < |gDag| ==> gDag[k] == FlatWord(light.h, light.cache, light.parents, k)
  }

  /** The shader launched over an epoch's DAG, its shared memory preloaded. */
  ghost predicate Launched(k: Shader.Launch, light: LightCache)
    reads light
  {
    && HoldsDag(k.gDag, light) && k.perm == F800() && k.dagElements == light.dagElements && |k.gids| == 32
    && |k.gDag| >= 4096 && k.cDag == k.gDag[..4096]
  }

  /** The flat buffer holds the rows the sequential hash asks the light cache for. */
  lemma BufferMatchesRows(gDag: seq<Word>, light: LightCache)
    requires HoldsDag(gDag, light)
    ensures 0 < light.dagElements < 0x1_0000_0000 && light.dagElements % 0x1_0000_0000 == light.dagElements
    ensures GlslExec.DagMatches(gDag, RowsOf(light.h, light.cache, light.parents), light.dagElements)
    ensures |gDag| >= 4096 ==> gDag[..4096] == FirstWords(light.h, light.cache, light.parents)
  {
    hide LightCache.Valid, FlatWord, RowsOf, FirstWords;
    Dimensions(light);
    RowsInBuffer(gDag, light);
    if |gDag| >= 4096 {
      FirstWordsAre(light.h, light.cache, light.parents, gDag[..4096]);
    }
  }

  lemma Dimensions(light: LightCache)
    requires light.Valid()
    ensures light.dagItems == 4 * light.dagElements + 2 && light.dagElements > 0
  {
    DagAccess.DatasetShape(light);
  }

  lemma RowsInBuffer(gDag: seq<Word>, light: LightCache)
    requires HoldsDag(gDag, light)
    ensures forall row: Word, i :: row < 16 * light.dagElements && 0 <= i < 4 ==>
      RowsOf(light.h, light.cache, light.parents)(row)[i] == gDag[4 * row + i]
  {
    hide HoldsDag, LightCache.Valid, RowsOf, IsFlat;
    var h, cache, parents := light.h, light.cache, light.parents;
    var de := light.dagElements;
    BufferIsFlat(gDag, light);
    forall row: Word, i | row < 16 * de && 0 <= i < 4
      ensures RowsOf(h, cache, parents)(row)[i] == gDag[4 * row + i]
    {
      FlatAt(gDag, h, cache, parents, 4 * row + i);
      RowWord(h, cache, parents, row, i);
    }
  }

  lemma BufferIsFlat(gDag: seq<Word>, light: LightCache)
    requires HoldsDag(gDag, light)
    ensures IsFlat(gDag, light.h, light.cache, light.parents) && 64 * light.dagElements <= |gDag|
  {
    Dimensions(light);
    hide LightCache.Valid, FlatWord;
  }

  /** Every word is the dataset's. */
  ghost predicate IsFlat(gDag: seq<Word>, h: Hash512, cache: Light, parents: Word) {
    |gDag| <= 0x1_0000_0000 && forall k :: 0 <= k < |gDag| ==> gDag[k] == FlatWord(h, cache, parents, k)
  }

  lemma FlatAt(gDag: seq<Word>, h: Hash512, cache: Light, parents: Word, k: nat)
    requires IsFlat(gDag, h, cache, parents) && k < |gDag|
    ensures gDag[k] == FlatWord(h, cache, parents, k)
  {
    hide FlatWord;
  }

  lemma RowWord(h: Hash512, cache: Light, parents: Word, row: Word, i: nat)
    requires i < 4
    ensures RowsOf(h, cache, parents)(row)[i] == FlatWord(h, cache, parents, 4 * row + i)
  {
    hide DagRowOf, FlatWord;
    RowsAreFlat(h, cache, parents, row, i);
  }

  /** A launch over the epoch's DAG meets the requirements of the refinement. */
  lemma LaunchMatches(k: Shader.Launch, light: LightCache, progSeed: U64, cntCache: nat, cntMath: nat)
    requires Launched(k, light)
    ensures light.dagElements % 0x1_0000_0000 != 0
    ensures Refinement.Matches(k, LightSetup(light, progSeed, k.variant, cntCache, cntMath))
  {
    BufferMatchesRows(k.gDag, light);
    GlslExec.ProgramLoadsFirst(SettingOf(progSeed, cntCache, cntMath));
    hide HoldsDag, GlslExec.DagMatches, GlslExec.LoadsFirst, RowsOf, FirstWords, Setting.Ops;
  }

  /** What a lane has after a finished run: the host's hash of its own nonce. */
  ghost predicate HostHash(k: Shader.Launch, light: LightCache, progSeed: U64, cntCache: nat, cntMath: nat, lane: nat, s: Shader.Lane)
    reads light
    requires |k.gids| == 32 && lane < 32 && light.dagElements % 0x1_0000_0000 != 0
  {
    Refinement.HoldsHash(k, LightSetup(light, progSeed, k.variant, cntCache, cntMath), lane, s)
  }

  /** Shader text, program IR and sequential interpreter agree: whatever the interleaving, a lane's
      digest and result are those of `hash_one` on the light cache at nonce start + gid. */
  lemma GpuAgreesWithHost(k: Shader.Launch, light: LightCache, progSeed: U64, cntCache: nat, cntMath: nat,
                          stmts: seq<GlslText.Stmt>, states: seq<Shader.Lane>, schedule: seq<Simt.Event>, d: Simt.Config<Shader.Lane>)
    requires Launched(k, light) && |states| == 32
    requires Render.ParseLoop(Render.LoopText(progSeed, Program(progSeed, cntCache, cntMath))) == Some(stmts)
    requires Refinement.RunsTo(k, stmts, states, schedule, d)
    ensures light.dagElements % 0x1_0000_0000 != 0 && |d.states| == 32
    ensures forall lane :: 0 <= lane < 32 ==> HostHash(k, light, progSeed, cntCache, cntMath, lane, d.states[lane])
  {
    LaunchMatches(k, light, progSeed, cntCache, cntMath);
    hide Launched, Refinement.Matches, Refinement.HoldsHash, Refinement.RunsTo,
      Render.LoopText, Render.ParseLoop, FirstWords, RowsOf, Program;
    Refinement.ShaderRefinesHash(k, LightSetup(light, progSeed, k.variant, cntCache, cntMath), progSeed, stmts, states, schedule, d);
  }

  /** A reported nonce has the reported digest, and its hash meets the target. */
  ghost predicate Passes(setup: Setup, header: Eight, nonce: U64, mixWords: Eight, target: U64) {
    HashOne(setup, header, nonce).0 == mixWords && HashOne(setup, header, nonce).1 <= target
  }

  /** Recompute the hash of a reported nonce on the host; without a light cache the device is trusted. */
  method SelfRecheck(header: seq<Byte>, nonce: U64, mixWords: Eight, target: U64, light: LightCache?, progSeed: U64,
                     variant: Variant, cntCache: nat, cntMath: nat)
    returns (ok: bool)
    requires |header| == 32 && (light != null ==> light.Valid() && light.dagElements % 0x1_0000_0000 != 0)
    modifies if light != null then {light} else {}
    ensures light == null ==> ok
    ensures light != null ==> light.Valid()
    ensures light != null ==>
              (ok <==> Passes(old(LightSetup(light, progSeed, variant, cntCache, cntMath)), HeaderWords(header), nonce, mixWords, target))
  {
    hide HashOne, LightCache.Valid, SetupOf, HeaderWords;
    if light == null {
      return true;
    }
    var digest, result := ComputeHash(header, nonce, light, progSeed, variant, cntCache, cntMath);
    ok := digest == mixWords && result <= target;
  }

  /** The recheck never drops a solution of a correct GPU: it passes exactly what the lane accepts. */
  lemma RecheckConfirms(k: Shader.Launch, light: LightCache, progSeed: U64, cntCache: nat, cntMath: nat, lane: nat,
                        s: Shader.Lane, target: U64)
    requires |k.gids| == 32 && lane < 32 && light.dagElements % 0x1_0000_0000 != 0
    requires HostHash(k, light, progSeed, cntCache, cntMath, lane, s)
    ensures Passes(LightSetup(light, progSeed, k.variant, cntCache, cntMath), k.header, k.NonceOf(lane), s.digest, target)
            <==> Refinement.AcceptsAt(s, target)
  {
    hide HashOne, Refinement.AcceptsAt, LightSetup, Passes, Refinement.HoldsHash;
    Confirmed(k, LightSetup(light, progSeed, k.variant, cntCache, cntMath), lane, s, target);
  }

  lemma Confirmed(k: Shader.Launch, setup: Setup, lane: nat, s: Shader.Lane, target: U64)
    requires |k.gids| == 32 && lane < 32 && Refinement.HoldsHash(k, setup, lane, s)
    ensures Passes(setup, k.header, k.NonceOf(lane), s.digest, target) <==> Refinement.AcceptsAt(s, target)
  {
    hide HashOne, Refinement.AcceptsAt;
    Refinement.AcceptsIff(k, setup, lane, s, target);
  }

  // ---- the preload reaches far enough ----

  lemma Prime257()
    ensures Prime(257)
  {
    assert forall d :: 2 <= d < 17 ==> Leaves(d);
    PrimeAbove(257, 17);
  }

  /** 257 divided by `d` leaves a remainder. */
  predicate Leaves(d: nat)
    requires 2 <= d < 17
  {
    257 % d != 0
  }

  /** Every epoch's DAG has the 4096 words that are preloaded. */
  lemma DagHasCache(light: LightCache)
    requires light.Valid()
    ensures 16 * light.dagItems >= 4096
  {
    Prime257();
    hide Prime;
    var p, q := light.fullSize / 128, FullBound(light.epoch) / 128 - 1;
    assert 257 <= q;
    assert p >= 257;
    DagAccess.DatasetShape(light);
  }

  /** The cooperative preload leaves in shared memory what `progpow_cache` returns on the host. */
  lemma PreloadIsProgpowCache(size: Preload.GroupSize, gDag: seq<Word>, light: LightCache, before: CacheWords, schedule: seq<nat>)
    requires HoldsDag(gDag, light) && |gDag| >= 4096 && Preload.Legal(size, schedule)
    requires forall lid :: 0 <= lid < size ==> Preload.Run(size, gDag, before, schedule).at[lid].w >= 4096
    ensures Preload.Run(size, gDag, before, schedule).cDag == FirstWords(light.h, light.cache, light.parents)
  {
    BufferMatchesRows(gDag, light);
    hide HoldsDag, Preload.Run, FirstWords;
    Preload.PreloadComplete(size, gDag, before, schedule);
  }
}
