/** The result buffer of the search shader: atomic counters, sixteen slots, any interleaving. */
module Slots {
  import opened Words

  const MAX_OUTPUTS: nat := 16

  /** What an invocation has to report: whether its hash passed, and its mix digest. */
  datatype Outcome = Outcome(passed: bool, digest: seq<Word>)
  type Outcomes = s: seq<Outcome> | |s| < 0x1_0000_0000 && forall o :: o in s ==> |o.digest| == 8

  /** The next action of an invocation. */
  datatype Pc = CountHash | TakeSlot | Write(slot: nat, word: nat) | CountAbort | Done

  /** The buffer, the invocations' program counters, and the order in which slots were taken. */
  datatype State = State(count: nat, hashCount: nat, abort: nat, results: seq<Word>, pcs: seq<Pc>, order: seq<nat>)

  /** The nine words of a result: the invocation number, then the digest. */
  function ResultWord(outcomes: Outcomes, gid: nat, k: nat): Word
    requires gid < |outcomes| && k < 9
  {
    if k == 0 then gid else outcomes[gid].digest[k - 1]
  }

  ghost predicate Shaped(outcomes: Outcomes, s: State) {
    && |s.results| == 9 * MAX_OUTPUTS && |s.pcs| == |outcomes|
    && forall i :: 0 <= i < |s.pcs| && s.pcs[i].Write? ==> s.pcs[i].slot < MAX_OUTPUTS && s.pcs[i].word < 9
  }

  /** The host clears the header and leaves the slots as the previous dispatch left them. */
  function Start(outcomes: Outcomes, stale: seq<Word>): State {
    State(0, 0, 0, stale, seq(|outcomes|, _ => CountHash), [])
  }

  /** One atomic action of invocation `gid`. */
  ghost function Step(outcomes: Outcomes, s: State, gid: nat): (s': State)
    requires Shaped(outcomes, s) && gid < |outcomes|
    ensures Shaped(outcomes, s')
  {
    match s.pcs[gid]
    case CountHash =>
      s.(hashCount := s.hashCount + 1, pcs := s.pcs[gid := if outcomes[gid].passed then TakeSlot else Done])
    case TakeSlot =>
      s.(count := s.count + 1, order := s.order + [gid],
         pcs := s.pcs[gid := if s.count < MAX_OUTPUTS then Write(s.count, 0) else CountAbort])
    case Write(slot, k) =>
      s.(results := s.results[9 * slot + k := ResultWord(outcomes, gid, k)],
         pcs := s.pcs[gid := if k == 8 then CountAbort else Write(slot, k + 1)])
    case CountAbort => s.(abort := s.abort + 1, pcs := s.pcs[gid := Done])
    case Done => s
  }

  /** A schedule names the invocation that acts next. */
  ghost predicate Legal(outcomes: Outcomes, schedule: seq<nat>) {
    forall k :: 0 <= k < |schedule| ==> schedule[k] < |outcomes|
  }

  ghost function Run(outcomes: Outcomes, stale: seq<Word>, schedule: seq<nat>): (s: State)
    requires |stale| == 9 * MAX_OUTPUTS && Legal(outcomes, schedule)
    ensures Shaped(outcomes, s)
  {
    if schedule == [] then Start(outcomes, stale)
    else
      var last := |schedule| - 1;
      Step(outcomes, Run(outcomes, stale, schedule[..last]), schedule[last])
  }

  // ---- the invariant ----

  function Written(pc: Pc): nat {
    match pc
    case CountHash | TakeSlot => 0
    case Write(_, k) => k
    case CountAbort | Done => 9
  }

  ghost predicate SlotFilled(outcomes: Outcomes, s: State, n: nat)
    requires Shaped(outcomes, s) && n < |s.order| && n < MAX_OUTPUTS && s.order[n] < |outcomes|
  {
    forall k :: 0 <= k < 9 && k < Written(s.pcs[s.order[n]]) ==>
      s.results[9 * n + k] == ResultWord(outcomes, s.order[n], k)
  }

  ghost predicate Inv(outcomes: Outcomes, s: State)
    requires Shaped(outcomes, s)
  {
    && s.count == |s.order|
    && (forall n :: 0 <= n < |s.order| ==> s.order[n] < |outcomes| && outcomes[s.order[n]].passed)
    && (forall m, n :: 0 <= m < n < |s.order| ==> s.order[m] != s.order[n])
    && (forall i :: 0 <= i < |outcomes| ==> (i in s.order <==> outcomes[i].passed && !s.pcs[i].CountHash? && !s.pcs[i].TakeSlot?))
    && (forall i :: 0 <= i < |outcomes| && !outcomes[i].passed ==> s.pcs[i].CountHash? || s.pcs[i].Done?)
    && (forall n :: 0 <= n < |s.order| && s.pcs[s.order[n]].Write? ==> s.pcs[s.order[n]].slot == n)
    && (forall n :: 0 <= n < |s.order| && n < MAX_OUTPUTS ==> SlotFilled(outcomes, s, n))
    && s.hashCount == Started(s.pcs)
  }

  function Started(pcs: seq<Pc>): nat {
    if pcs == [] then 0 else Started(pcs[..|pcs| - 1]) + (if pcs[|pcs| - 1].CountHash? then 0 else 1)
  }

  lemma {:induction false} StartedUpdate(pcs: seq<Pc>, i: nat, pc: Pc)
    requires i < |pcs|
    ensures Started(pcs[i := pc]) ==
            Started(pcs) + (if pc.CountHash? then 0 else 1) - (if pcs[i].CountHash? then 0 else 1)
  {
    var last := |pcs| - 1;
    if i < last {
      StartedUpdate(pcs[..last], i, pc);
      assert pcs[i := pc][..last] == pcs[..last][i := pc];
    } else {
      assert pcs[i := pc][..last] == pcs[..last];
    }
  }

  lemma {:induction false} StartedBounds(pcs: seq<Pc>)
    ensures (forall i :: 0 <= i < |pcs| ==> pcs[i].CountHash?) ==> Started(pcs) == 0
    ensures (forall i :: 0 <= i < |pcs| ==> !pcs[i].CountHash?) ==> Started(pcs) == |pcs|
  {
    if pcs != [] {
      StartedBounds(pcs[..|pcs| - 1]);
    }
  }

  lemma CountKeepsInv(outcomes: Outcomes, s: State, gid: nat)
    requires Shaped(outcomes, s) && Inv(outcomes, s) && gid < |outcomes|
    requires s.pcs[gid].CountHash? || s.pcs[gid].CountAbort?
    ensures Inv(outcomes, Step(outcomes, s, gid))
  {
    hide Started;
    var s' := Step(outcomes, s, gid);
    StartedUpdate(s.pcs, gid, s'.pcs[gid]);
    forall n | 0 <= n < |s'.order| && n < MAX_OUTPUTS
      ensures SlotFilled(outcomes, s', n)
    {
      assert SlotFilled(outcomes, s, n);
    }
  }

  lemma TakeKeepsInv(outcomes: Outcomes, s: State, gid: nat)
    requires Shaped(outcomes, s) && Inv(outcomes, s) && gid < |outcomes| && s.pcs[gid].TakeSlot?
    ensures Inv(outcomes, Step(outcomes, s, gid))
  {
    hide Started;
    var s' := Step(outcomes, s, gid);
    StartedUpdate(s.pcs, gid, s'.pcs[gid]);
    forall n | 0 <= n < |s'.order| && n < MAX_OUTPUTS
      ensures SlotFilled(outcomes, s', n)
    {
      if n < |s.order| {
        assert SlotFilled(outcomes, s, n);
      }
    }
  }

  lemma WriteKeepsInv(outcomes: Outcomes, s: State, gid: nat)
    requires Shaped(outcomes, s) && Inv(outcomes, s) && gid < |outcomes| && s.pcs[gid].Write?
    ensures Inv(outcomes, Step(outcomes, s, gid))
  {
    hide Started;
    var s' := Step(outcomes, s, gid);
    StartedUpdate(s.pcs, gid, s'.pcs[gid]);
    forall n | 0 <= n < |s'.order| && n < MAX_OUTPUTS
      ensures SlotFilled(outcomes, s', n)
    {
      assert SlotFilled(outcomes, s, n);
    }
  }

  lemma StepKeepsInv(outcomes: Outcomes, s: State, gid: nat)
    requires Shaped(outcomes, s) && Inv(outcomes, s) && gid < |outcomes|
    ensures Inv(outcomes, Step(outcomes, s, gid))
  {
    hide Inv;
    match s.pcs[gid]
    case CountHash => CountKeepsInv(outcomes, s, gid);
    case TakeSlot => TakeKeepsInv(outcomes, s, gid);
    case Write(_, _) => WriteKeepsInv(outcomes, s, gid);
    case CountAbort => CountKeepsInv(outcomes, s, gid);
    case Done =>
  }

  lemma {:induction false} RunKeepsInv(outcomes: Outcomes, stale: seq<Word>, schedule: seq<nat>)
    requires |stale| == 9 * MAX_OUTPUTS && Legal(outcomes, schedule)
    ensures Inv(outcomes, Run(outcomes, stale, schedule))
  {
    hide Inv, Step;
    if schedule == [] {
      StartInv(outcomes, stale);
    } else {
      var last := |schedule| - 1;
      RunKeepsInv(outcomes, stale, schedule[..last]);
      StepKeepsInv(outcomes, Run(outcomes, stale, schedule[..last]), schedule[last]);
    }
  }

  lemma StartInv(outcomes: Outcomes, stale: seq<Word>)
    requires |stale| == 9 * MAX_OUTPUTS
    ensures Inv(outcomes, Start(outcomes, stale))
  {
    StartedBounds(Start(outcomes, stale).pcs);
  }

  // ---- what the host reads ----

  datatype Solution = Solution(gid: Word, mix: seq<Word>)

  /** The host's read-back of `min(count, 16)` slots. */
  method ReadBack(count: nat, results: seq<Word>) returns (sols: seq<Solution>)
    requires |results| == 9 * MAX_OUTPUTS
    ensures |sols| == if count < MAX_OUTPUTS then count else MAX_OUTPUTS
    ensures forall n :: 0 <= n < |sols| ==> sols[n] == SolutionAt(results, n)
  {
    sols := [];
    for n := 0 to if count < MAX_OUTPUTS then count else MAX_OUTPUTS
      invariant |sols| == n && forall m :: 0 <= m < n ==> sols[m] == SolutionAt(results, m)
    {
      var base := 9 * n;
      var mix: seq<Word> := [];
      for j := 0 to 8
        invariant mix == results[base + 1..base + 1 + j]
      {
        mix := mix + [results[base + 1 + j]];
      }
      sols := sols + [Solution(results[base], mix)];
    }
  }

  function SolutionAt(results: seq<Word>, n: nat): Solution
    requires |results| == 9 * MAX_OUTPUTS && n < MAX_OUTPUTS
  {
    Solution(results[9 * n], results[9 * n + 1..9 * n + 9])
  }

  /** After any complete schedule, slot by slot, the host reads whole results of different invocations
      that passed in this dispatch; nobody who passed is missing while slots last. */
  lemma CompleteRun(outcomes: Outcomes, stale: seq<Word>, schedule: seq<nat>)
    requires |stale| == 9 * MAX_OUTPUTS && Legal(outcomes, schedule)
    requires forall i :: 0 <= i < |outcomes| ==> Run(outcomes, stale, schedule).pcs[i] == Done
    ensures var s := Run(outcomes, stale, schedule);
            && s.hashCount == |outcomes| && s.count == |s.order|
            && (forall i :: 0 <= i < |outcomes| ==> (outcomes[i].passed <==> i in s.order))
            && (forall m, n :: 0 <= m < n < |s.order| ==> s.order[m] != s.order[n])
            && (forall n :: 0 <= n < |s.order| ==> s.order[n] < |outcomes|)
            && forall n :: 0 <= n < |s.order| && n < MAX_OUTPUTS ==>
                 SolutionAt(s.results, n) == Solution(s.order[n], outcomes[s.order[n]].digest)
  {
    RunKeepsInv(outcomes, stale, schedule);
    var s := Run(outcomes, stale, schedule);
    StartedBounds(s.pcs);
    hide Run, Started, ResultWord;
    forall n | 0 <= n < |s.order| && n < MAX_OUTPUTS
      ensures SolutionAt(s.results, n) == Solution(s.order[n], outcomes[s.order[n]].digest)
    {
      assert SlotFilled(outcomes, s, n);
      assert outcomes[s.order[n]] in outcomes;
      FilledSlot(outcomes, s.results, s.order[n], n);
    }
  }

  /** Nine result words make a solution. */
  lemma FilledSlot(outcomes: Outcomes, results: seq<Word>, gid: nat, n: nat)
    requires gid < |outcomes| && n < MAX_OUTPUTS && |results| == 9 * MAX_OUTPUTS
    requires forall k :: 0 <= k < 9 ==> results[9 * n + k] == ResultWord(outcomes, gid, k)
    ensures SolutionAt(results, n) == Solution(gid, outcomes[gid].digest)
  {
    assert outcomes[gid] in outcomes;
    var d := outcomes[gid].digest;
    var mix := results[9 * n + 1..9 * n + 9];
    assert results[9 * n + 0] == ResultWord(outcomes, gid, 0);
    forall j | 0 <= j < 8
      ensures mix[j] == d[j]
    {
      assert results[9 * n + (j + 1)] == ResultWord(outcomes, gid, j + 1);
    }
    assert mix == d;
  }

  // ---- every schedule can be completed ----

  /** Actions left to an invocation, counting generously. */
  function Rest(pc: Pc): nat {
    match pc
    case CountHash => 12
    case TakeSlot => 11
    case Write(_, k) => if k <= 8 then 10 - k else 2
    case CountAbort => 1
    case Done => 0
  }

  function TotalRest(pcs: seq<Pc>): nat { if pcs == [] then 0 else TotalRest(pcs[..|pcs| - 1]) + Rest(pcs[|pcs| - 1]) }

  lemma {:induction false} TotalRestUpdate(pcs: seq<Pc>, i: nat, pc: Pc)
    requires i < |pcs|
    ensures TotalRest(pcs[i := pc]) == TotalRest(pcs) + Rest(pc) - Rest(pcs[i])
  {
    hide Rest;
    var last := |pcs| - 1;
    if i < last {
      TotalRestUpdate(pcs[..last], i, pc);
      assert pcs[i := pc][..last] == pcs[..last][i := pc];
    } else {
      assert pcs[i := pc][..last] == pcs[..last];
    }
  }

  /** Whatever an unfinished invocation does next, less is left. */
  lemma StepMakesProgress(outcomes: Outcomes, s: State, gid: nat)
    requires Shaped(outcomes, s) && gid < |outcomes| && s.pcs[gid] != Done
    ensures TotalRest(Step(outcomes, s, gid).pcs) < TotalRest(s.pcs)
  {
    hide TotalRest;
    TotalRestUpdate(s.pcs, gid, Step(outcomes, s, gid).pcs[gid]);
    assert Step(outcomes, s, gid).pcs == s.pcs[gid := Step(outcomes, s, gid).pcs[gid]];
  }

  lemma RunStep(outcomes: Outcomes, stale: seq<Word>, schedule: seq<nat>, gid: nat)
    requires |stale| == 9 * MAX_OUTPUTS && Legal(outcomes, schedule) && gid < |outcomes|
    ensures Legal(outcomes, schedule + [gid])
    ensures Run(outcomes, stale, schedule + [gid]) == Step(outcomes, Run(outcomes, stale, schedule), gid)
  {
    hide Step;
    assert (schedule + [gid])[..|schedule|] == schedule;
  }

  /** Any schedule can be continued until every invocation has finished. */
  lemma CanFinish(outcomes: Outcomes, stale: seq<Word>, schedule: seq<nat>) returns (more: seq<nat>)
    requires |stale| == 9 * MAX_OUTPUTS && Legal(outcomes, schedule)
    ensures Legal(outcomes, schedule + more)
    ensures forall i :: 0 <= i < |outcomes| ==> Run(outcomes, stale, schedule + more).pcs[i] == Done
    decreases TotalRest(Run(outcomes, stale, schedule).pcs)
  {
    hide Run, Step, TotalRest, Legal;
    var s := Run(outcomes, stale, schedule);
    if gid: nat :| gid < |outcomes| && s.pcs[gid] != Done {
      StepMakesProgress(outcomes, s, gid);
      RunStep(outcomes, stale, schedule, gid);
      more := CanFinish(outcomes, stale, schedule + [gid]);
      assert schedule + [gid] + more == schedule + ([gid] + more);
      more := [gid] + more;
    } else {
      more := [];
      assert schedule + [] == schedule;
    }
  }
}
