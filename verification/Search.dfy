/** A whole search dispatch: what the host reads back are shares that its own recheck accepts. */
module Search {
  import opened Words
  import opened Options
  import opened ProgPow
  import opened LightCaches
  import opened Hash
  import opened Reference
  import Agreement
  import GlslText
  import Refinement
  import Render
  import Shader
  import Simt
  import Slots

  /** The nonces of a dispatch: `count` of them from `start`, with no wrap. */
  datatype Batch = Batch(variant: Variant, header: Eight, start: U64, target: U64, count: nat) {
    predicate Valid() { start + count <= 0x1_0000_0000_0000_0000 }
    function NonceOf(gid: nat): U64
      requires Valid() && gid < count
    {
      start + gid
    }
  }

  /** One run of a subgroup: its launch, the statements of its loop, and how its lanes interleaved. */
  datatype Trace = Trace(k: Shader.Launch, stmts: seq<GlslText.Stmt>, states: seq<Shader.Lane>, schedule: seq<Simt.Event>,
                         end: Simt.Config<Shader.Lane>)

  /** The run executes the period's rendered loop, over the epoch's DAG, for this batch, to its end. */
  ghost predicate Ran(light: LightCache, progSeed: U64, b: Batch, run: Trace)
    reads light
  {
    && Agreement.Launched(run.k, light) && |run.states| == 32
    && run.k.variant == b.variant && run.k.header == b.header && run.k.start == b.start
    && Render.ParseLoop(Render.LoopText(progSeed, Program(progSeed, CNT_CACHE, CNT_MATH))) == Some(run.stmts)
    && Refinement.RunsTo(run.k, run.stmts, run.states, run.schedule, run.end)
  }

  /** What the lane of an invocation reports at the end of its run. */
  ghost predicate Reported(b: Batch, run: Trace, lane: nat, gid: nat, outcome: Slots.Outcome) {
    && lane < 32 && |run.k.gids| == 32 == |run.end.states| && run.k.gids[lane] == gid
    && outcome == Slots.Outcome(Refinement.AcceptsAt(run.end.states[lane], b.target), run.end.states[lane].digest)
  }

  /** Some run executed the invocation and reported `outcome`. */
  ghost predicate Executed(light: LightCache, progSeed: U64, b: Batch, gid: nat, outcome: Slots.Outcome)
    reads light
  {
    exists run: Trace, lane :: Ran(light, progSeed, b, run) && Reported(b, run, lane, gid, outcome)
  }

  /** The outcome is what the sequential hash of the nonce says. */
  ghost predicate IsRecheck(setup: Setup, b: Batch, gid: nat, outcome: Slots.Outcome)
    requires b.Valid() && gid < b.count
  {
    && outcome.digest == HashOne(setup, b.header, b.NonceOf(gid)).0
    && (outcome.passed <==> HashOne(setup, b.header, b.NonceOf(gid)).1 <= b.target)
  }

  /** Whatever the lanes of the run did in between, an invocation reports the host's digest, and passes
      exactly when the host's hash meets the target. */
  lemma OutcomeIsRecheck(light: LightCache, progSeed: U64, b: Batch, gid: nat, outcome: Slots.Outcome)
    requires b.Valid() && gid < b.count && light.dagElements % 0x1_0000_0000 != 0
    requires Executed(light, progSeed, b, gid, outcome)
    ensures IsRecheck(LightSetup(light, progSeed, b.variant, CNT_CACHE, CNT_MATH), b, gid, outcome)
  {
    hide Ran, Reported, IsRecheck, LightSetup;
    var run: Trace, lane :| Ran(light, progSeed, b, run) && Reported(b, run, lane, gid, outcome);
    RunHolds(light, progSeed, b, run, lane, gid, outcome);
    ReportIsRecheck(LightSetup(light, progSeed, b.variant, CNT_CACHE, CNT_MATH), b, run, lane, gid, outcome);
  }

  /** The lane's final state holds the host's hash: the refinement, for this run. */
  lemma RunHolds(light: LightCache, progSeed: U64, b: Batch, run: Trace, lane: nat, gid: nat, outcome: Slots.Outcome)
    requires light.dagElements % 0x1_0000_0000 != 0
    requires Ran(light, progSeed, b, run) && Reported(b, run, lane, gid, outcome)
    ensures |run.k.gids| == 32 && lane < 32 && lane < |run.end.states| && Bound(b, run)
    ensures Refinement.HoldsHash(run.k, LightSetup(light, progSeed, b.variant, CNT_CACHE, CNT_MATH), lane, run.end.states[lane])
  {
    hide Agreement.Launched, Render.ParseLoop, Render.LoopText, Program, Refinement.RunsTo, Refinement.HoldsHash, Refinement.AcceptsAt;
    Agreement.GpuAgreesWithHost(run.k, light, progSeed, CNT_CACHE, CNT_MATH, run.stmts, run.states, run.schedule, run.end);
    assert Agreement.HostHash(run.k, light, progSeed, CNT_CACHE, CNT_MATH, lane, run.end.states[lane]);
  }

  /** The run has the batch's header and first nonce. */
  ghost predicate Bound(b: Batch, run: Trace) { run.k.header == b.header && run.k.start == b.start }

  lemma ReportIsRecheck(setup: Setup, b: Batch, run: Trace, lane: nat, gid: nat, outcome: Slots.Outcome)
    requires b.Valid() && gid < b.count && Bound(b, run) && Reported(b, run, lane, gid, outcome)
    requires Refinement.HoldsHash(run.k, setup, lane, run.end.states[lane])
    ensures IsRecheck(setup, b, gid, outcome)
  {
    hide HashOne, Refinement.AcceptsAt;
    Refinement.AcceptsIff(run.k, setup, lane, run.end.states[lane], b.target);
    assert run.k.NonceOf(lane) == b.NonceOf(gid);
  }

  /** A solution the host reads: a nonce of this batch with its digest, which passes the recheck. */
  ghost predicate Sound(setup: Setup, b: Batch, sol: Slots.Solution)
    requires b.Valid()
  {
    sol.gid < b.count && |sol.mix| == 8 && Agreement.Passes(setup, b.header, b.NonceOf(sol.gid), sol.mix, b.target)
  }

  ghost predicate Found(sols: seq<Slots.Solution>, gid: nat) { exists n :: 0 <= n < |sols| && sols[n].gid == gid }

  /** The nonce of an invocation meets the target. */
  ghost predicate Meets(setup: Setup, b: Batch, gid: nat)
    requires b.Valid() && gid < b.count
  {
    HashOne(setup, b.header, b.NonceOf(gid)).1 <= b.target
  }

  /** The schedule takes every invocation to its end. */
  ghost predicate Completed(outcomes: Slots.Outcomes, stale: seq<Word>, schedule: seq<nat>) {
    && |stale| == 9 * Slots.MAX_OUTPUTS && Slots.Legal(outcomes, schedule)
    && forall i :: 0 <= i < |outcomes| ==> Slots.Run(outcomes, stale, schedule).pcs[i] == Slots.Done
  }

  /** Every solution passes, and no two are of one nonce. */
  ghost predicate AllSound(setup: Setup, b: Batch, sols: seq<Slots.Solution>)
    requires b.Valid()
  {
    && (forall n :: 0 <= n < |sols| ==> Sound(setup, b, sols[n]))
    && forall m, n :: 0 <= m < n < |sols| ==> sols[m].gid != sols[n].gid
  }

  /** Every nonce of the batch that meets the target is among the solutions. */
  ghost predicate NoneMissing(setup: Setup, b: Batch, sols: seq<Slots.Solution>)
    requires b.Valid()
  {
    forall gid :: 0 <= gid < b.count && Meets(setup, b, gid) ==> Found(sols, gid)
  }

  /** After any complete order of the atomic steps, every solution that is read passes the host's
      recheck and all are different; unless more than sixteen passed, none that meets the target is
      missing. */
  lemma DispatchIsSound(light: LightCache, progSeed: U64, b: Batch, outcomes: Slots.Outcomes, stale: seq<Word>,
                        schedule: seq<nat>, sols: seq<Slots.Solution>)
    requires b.Valid() && |outcomes| == b.count && light.dagElements % 0x1_0000_0000 != 0
    requires Completed(outcomes, stale, schedule) && ReadBackIs(Slots.Run(outcomes, stale, schedule), sols)
    requires forall gid :: 0 <= gid < b.count ==> Executed(light, progSeed, b, gid, outcomes[gid])
    ensures AllSound(LightSetup(light, progSeed, b.variant, CNT_CACHE, CNT_MATH), b, sols)
    ensures Slots.Run(outcomes, stale, schedule).count <= 16 ==>
              NoneMissing(LightSetup(light, progSeed, b.variant, CNT_CACHE, CNT_MATH), b, sols)
  {
    hide Executed, Slots.Run, LightSetup;
    var setup := LightSetup(light, progSeed, b.variant, CNT_CACHE, CNT_MATH);
    forall gid | 0 <= gid < b.count
      ensures IsRecheck(setup, b, gid, outcomes[gid])
    {
      OutcomeIsRecheck(light, progSeed, b, gid, outcomes[gid]);
    }
    Slots.CompleteRun(outcomes, stale, schedule);
    ReadIsSound(setup, b, outcomes, Slots.Run(outcomes, stale, schedule), sols);
  }

  lemma ReadIsSound(setup: Setup, b: Batch, outcomes: Slots.Outcomes, s: Slots.State, sols: seq<Slots.Solution>)
    requires b.Valid() && |outcomes| == b.count && |s.results| == 9 * Slots.MAX_OUTPUTS
    requires forall gid :: 0 <= gid < b.count ==> IsRecheck(setup, b, gid, outcomes[gid])
    requires s.count == |s.order|
    requires forall i :: 0 <= i < |outcomes| ==> (outcomes[i].passed <==> i in s.order)
    requires forall m, n :: 0 <= m < n < |s.order| ==> s.order[m] != s.order[n]
    requires forall n :: 0 <= n < |s.order| ==> s.order[n] < |outcomes|
    requires forall n :: 0 <= n < |s.order| && n < Slots.MAX_OUTPUTS ==>
      Slots.SolutionAt(s.results, n) == Slots.Solution(s.order[n], outcomes[s.order[n]].digest)
    requires ReadBackIs(s, sols)
    ensures AllSound(setup, b, sols)
    ensures s.count <= 16 ==> NoneMissing(setup, b, sols)
  {
    hide HashOne, Slots.SolutionAt;
    forall n | 0 <= n < |sols|
      ensures Sound(setup, b, sols[n]) && sols[n].gid == s.order[n]
    {
      assert IsRecheck(setup, b, s.order[n], outcomes[s.order[n]]);
      assert outcomes[s.order[n]] in outcomes;
    }
    if s.count <= 16 {
      forall gid | 0 <= gid < b.count && Meets(setup, b, gid)
        ensures Found(sols, gid)
      {
        assert IsRecheck(setup, b, gid, outcomes[gid]);
        var n :| 0 <= n < |s.order| && s.order[n] == gid;
        assert sols[n].gid == gid;
      }
    }
  }

  /** What `ReadBack` returns. */
  ghost predicate ReadBackIs(s: Slots.State, sols: seq<Slots.Solution>)
    requires |s.results| == 9 * Slots.MAX_OUTPUTS
  {
    && |sols| == (if s.count < Slots.MAX_OUTPUTS then s.count else Slots.MAX_OUTPUTS)
    && forall n :: 0 <= n < |sols| ==> sols[n] == Slots.SolutionAt(s.results, n)
  }
}
