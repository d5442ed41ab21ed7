/** One dispatch of the mining loop, from the job's set-up to the shares that are submitted. */
module Mining {
  import opened Words
  import opened Options
  import opened ProgPow
  import opened LightCaches
  import opened Reference
  import opened Search
  import opened Miner
  import Agreement
  import Nonces
  import Refinement
  import Render
  import Shader
  import Slots

  /** The launch has the kernel's buffer and constants, and the batch's header and first nonce. */
  ghost predicate LaunchedOn(pipe: Pipe, b: Search.Batch, k: Shader.Launch)
    reads pipe.dag
  {
    && k.gDag == pipe.dag[..] && |k.gDag| >= 4096 && k.cDag == k.gDag[..4096] && |k.gids| == 32
    && k.perm == F800() && k.dagElements == pipe.dagElements && k.variant == pipe.variant == b.variant
    && k.header == b.header && k.start == b.start
  }

  /** The run executes the rendered loop of a period to its end. */
  ghost predicate RanLoop(period: nat, run: Trace) {
    && period < 0x1_0000_0000_0000_0000 && |run.k.gids| == 32 == |run.states|
    && Render.ParseLoop(Render.LoopText(period, Program(period, CNT_CACHE, CNT_MATH))) == Some(run.stmts)
    && Refinement.RunsTo(run.k, run.stmts, run.states, run.schedule, run.end)
  }

  /** The run executes the kernel in place. */
  ghost predicate RanKernel(m: VulkanMiner, b: Search.Batch, run: Trace)
    reads m, if m.searchPipe.Some? then {m.searchPipe.value.dag} else {}
  {
    m.searchPipe.Some? && LaunchedOn(m.searchPipe.value, b, run.k) && RanLoop(m.searchPipe.value.period, run)
  }

  ghost predicate ExecutedKernel(m: VulkanMiner, b: Search.Batch, gid: nat, outcome: Slots.Outcome)
    reads m, if m.searchPipe.Some? then {m.searchPipe.value.dag} else {}
  {
    exists run: Trace, lane :: RanKernel(m, b, run) && Reported(b, run, lane, gid, outcome)
  }

  /** The buffer of a bound kernel is the DAG of the miner's light cache. */
  lemma BufferHoldsDag(m: VulkanMiner, e: nat, p: nat)
    requires m.Bound(e, p)
    ensures m.light != null && m.searchPipe.Some? && Agreement.HoldsDag(m.searchPipe.value.dag[..], m.light)
    ensures m.light.dagElements % 0x1_0000_0000 != 0
  {
    CacheSizeFits(m.light);
    hide Ethash.FlatWord, LightCache.Valid;
    Agreement.Dimensions(m.light);
  }

  /** What a bound kernel runs is a run over the epoch's DAG with the period's program. */
  lemma KernelRan(m: VulkanMiner, e: nat, p: U64, b: Search.Batch, run: Trace)
    requires m.Bound(e, p) && RanKernel(m, b, run)
    ensures m.light != null && Ran(m.light, p, b, run)
  {
    BufferHoldsDag(m, e, p);
    hide Agreement.HoldsDag, Render.ParseLoop, Render.LoopText, Program, Refinement.RunsTo, VulkanMiner.NamesTrue,
      VulkanMiner.Filled;
  }

  lemma KernelExecuted(m: VulkanMiner, e: nat, p: U64, b: Search.Batch, gid: nat, outcome: Slots.Outcome)
    requires m.Bound(e, p) && ExecutedKernel(m, b, gid, outcome)
    ensures m.light != null && Executed(m.light, p, b, gid, outcome)
  {
    hide VulkanMiner.Bound, RanKernel, Ran, Reported;
    var run: Trace, lane :| RanKernel(m, b, run) && Reported(b, run, lane, gid, outcome);
    KernelRan(m, e, p, b, run);
  }

  /** The nonce of invocation `gid` carries the pool's prefix. */
  ghost predicate CarriesPrefix(region: Nonces.Region, b: Search.Batch, gid: nat)
    requires region.bits <= 64
  {
    region.Contains(b.start + gid)
  }

  /** The batch is dispatch `i` of the mining loop. */
  ghost predicate Scheduled(region: Nonces.Region, batch: nat, localSize: nat, rand: nat -> U64, turns: nat, i: nat, b: Search.Batch)
    requires region.Valid() && localSize > 0 && i < turns
  {
    var d := Nonces.RunOf(region, batch, localSize, rand, turns)[i];
    b.start == d.start && b.count == d.hashed
  }

  /** With the job's kernel bound, and a batch for which the region has room, everything that dispatch
      `i` of the job reads back passes the recheck on the miner's own light cache and carries the
      pool's prefix; and nothing that meets the target is missing unless more than sixteen passed. */
  lemma SharesOfDispatch(m: VulkanMiner, e: nat, p: U64, region: Nonces.Region, batch: nat, localSize: nat, rand: nat -> U64,
                         turns: nat, i: nat, b: Search.Batch, outcomes: Slots.Outcomes, stale: seq<Word>, schedule: seq<nat>,
                         sols: seq<Slots.Solution>)
    requires m.Bound(e, p) && region.Valid() && localSize > 0 && i < turns
    requires Nonces.MaxSalt(region.Span(), batch) + Nonces.Hashed(batch, localSize) <= region.Span()
    requires Scheduled(region, batch, localSize, rand, turns, i, b)
    requires |outcomes| == b.count
    requires Completed(outcomes, stale, schedule) && ReadBackIs(Slots.Run(outcomes, stale, schedule), sols)
    requires forall g :: 0 <= g < b.count ==> ExecutedKernel(m, b, g, outcomes[g])
    ensures b.Valid() && m.light != null && m.light.dagElements % 0x1_0000_0000 != 0
    ensures AllSound(LightSetup(m.light, p, b.variant, CNT_CACHE, CNT_MATH), b, sols)
    ensures forall n :: 0 <= n < |sols| ==> CarriesPrefix(region, b, sols[n].gid)
    ensures Slots.Run(outcomes, stale, schedule).count <= 16 ==>
              NoneMissing(LightSetup(m.light, p, b.variant, CNT_CACHE, CNT_MATH), b, sols)
  {
    hide VulkanMiner.Bound, Scheduled, ExecutedKernel, Executed, Slots.Run, LightSetup, AllSound, NoneMissing, Nonces.RunOf, Nonces.Hashed,
      Nonces.MaxSalt, Agreement.HoldsDag, ReadBackIs, Completed, CarriesPrefix;
    BufferHoldsDag(m, e, p);
    PlaceOfDispatch(region, batch, localSize, rand, turns, i, b);
    forall g | 0 <= g < b.count
      ensures Executed(m.light, p, b, g, outcomes[g])
    {
      KernelExecuted(m, e, p, b, g, outcomes[g]);
    }
    DispatchIsSound(m.light, p, b, outcomes, stale, schedule, sols);
    PrefixOfShares(region, LightSetup(m.light, p, b.variant, CNT_CACHE, CNT_MATH), b, sols);
  }

  /** Every nonce of the dispatch lies in the region. */
  lemma PlaceOfDispatch(region: Nonces.Region, batch: nat, localSize: nat, rand: nat -> U64, turns: nat, i: nat, b: Search.Batch)
    requires region.Valid() && localSize > 0 && i < turns
    requires Nonces.MaxSalt(region.Span(), batch) + Nonces.Hashed(batch, localSize) <= region.Span()
    requires Scheduled(region, batch, localSize, rand, turns, i, b)
    ensures b.Valid() && forall g :: 0 <= g < b.count ==> CarriesPrefix(region, b, g)
  {
    Nonces.RunInside(region, batch, localSize, rand, turns);
    Nonces.StartsWithin(region, batch, localSize, rand, turns, i);
    Nonces.RegionFits(region);
    hide Nonces.RunOf, Nonces.Hashed, Nonces.MaxSalt, Nonces.Region.Contains, Nonces.Region.Base, Nonces.Region.Span;
    var d := Nonces.RunOf(region, batch, localSize, rand, turns)[i];
    assert Nonces.Inside(region, d);
  }

  lemma PrefixOfShares(region: Nonces.Region, setup: Hash.Setup, b: Search.Batch, sols: seq<Slots.Solution>)
    requires b.Valid() && AllSound(setup, b, sols) && region.bits <= 64
    requires forall g :: 0 <= g < b.count ==> CarriesPrefix(region, b, g)
    ensures forall n :: 0 <= n < |sols| ==> CarriesPrefix(region, b, sols[n].gid)
  {
    hide Agreement.Passes, CarriesPrefix;
    forall n | 0 <= n < |sols|
      ensures CarriesPrefix(region, b, sols[n].gid)
    {
      assert Sound(setup, b, sols[n]);
    }
  }
}
