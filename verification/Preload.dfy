/** The striped copy of the first DAG words into shared memory, by all invocations of a workgroup. */
module Preload {
  import opened Arith
  import opened Words
  import opened Interpreter

  /** Where an invocation stands: the group of four words it copies, and the word within it. */
  datatype Place = Place(w: Word, i: nat)
  datatype State = State(cDag: CacheWords, at: seq<Place>)

  /** Workgroup sizes for which the loop variable stays within 32 bits. */
  type GroupSize = n: nat | 0 < n && 4 * n + 4096 <= 0x1_0000_0000 witness 1

  /** Every invocation starts at its own stripe; shared memory holds anything. */
  function Start(size: GroupSize, before: CacheWords): State {
    State(before, seq(size, (lid: nat) requires lid < size => Place(Mul(lid, 4), 0)))
  }

  /** Each invocation stays on whole groups of its own stripe. */
  ghost predicate Shaped(size: GroupSize, s: State) {
    |s.at| == size
    && forall lid :: 0 <= lid < size ==> s.at[lid].w % 4 == 0 && s.at[lid].i < 4 && s.at[lid].w / 4 % size == lid
  }

  lemma NextStripe(size: GroupSize, w: Word)
    requires w < 4096 && w % 4 == 0
    ensures Add(w, Mul(size, 4)) == w + 4 * size && (w + 4 * size) % 4 == 0
    ensures (w + 4 * size) / 4 % size == w / 4 % size
  {
    WholeWords(w, size);
    SameResidue(w / 4, size);
  }

  lemma WholeWords(w: nat, size: GroupSize)
    requires w < 4096 && w % 4 == 0
    ensures Add(w, Mul(size, 4)) == w + 4 * size && (w + 4 * size) % 4 == 0 && (w + 4 * size) / 4 == w / 4 + size
  {
  }

  lemma SameResidue(q: nat, size: nat)
    requires size > 0
    ensures (q + size) % size == q % size
  {
    DivMod(q, size);
    DistAdd(size, q / size, 1);
    DivUnique(q + size, size, q / size + 1, q % size);
  }

  /** Invocation `lid` copies one word. */
  ghost function Step(size: GroupSize, gDag: seq<Word>, s: State, lid: nat): (s': State)
    requires |gDag| >= 4096 && Shaped(size, s) && lid < size
    ensures Shaped(size, s')
  {
    var p := s.at[lid];
    if p.w >= 4096 then s
    else
      NextStripe(size, p.w);
      State(s.cDag[p.w + p.i := gDag[p.w / 4 * 4 + p.i]],
            s.at[lid := if p.i == 3 then Place(Add(p.w, Mul(size, 4)), 0) else Place(p.w, p.i + 1)])
  }

  ghost predicate Legal(size: GroupSize, schedule: seq<nat>) { forall k :: 0 <= k < |schedule| ==> schedule[k] < size }

  ghost function Run(size: GroupSize, gDag: seq<Word>, before: CacheWords, schedule: seq<nat>): (s: State)
    requires |gDag| >= 4096 && Legal(size, schedule)
    ensures Shaped(size, s)
  {
    if schedule == [] then
      StartShaped(size, before);
      Start(size, before)
    else
      var last := |schedule| - 1;
      Step(size, gDag, Run(size, gDag, before, schedule[..last]), schedule[last])
  }

  lemma StartShaped(size: GroupSize, before: CacheWords)
    ensures Shaped(size, Start(size, before))
  {
    forall lid | 0 <= lid < size
      ensures Mul(lid, 4) % 4 == 0 && Mul(lid, 4) / 4 % size == lid
    {
      assert Mul(lid, 4) == 4 * lid;
      DivUnique(lid, size, 0, lid);
    }
  }

  /** The invocation whose stripe holds word `a`. */
  function Owner(size: GroupSize, a: nat): (l: nat)
    ensures l < size
  {
    a / 4 % size
  }

  /** Every word its owner has passed is in place. */
  ghost predicate Inv(size: GroupSize, gDag: seq<Word>, s: State)
    requires |gDag| >= 4096 && Shaped(size, s)
  {
    forall a :: 0 <= a < 4096 && a < s.at[Owner(size, a)].w + s.at[Owner(size, a)].i ==> s.cDag[a] == gDag[a]
  }

  /** Between two groups of one stripe lie only groups of other stripes. */
  lemma StripesApart(size: GroupSize, w: nat, a: nat)
    requires w % 4 == 0 && Owner(size, a) == w / 4 % size && w + 4 <= a
    ensures w + 4 * size <= a
  {
    var p, q := a / 4, w / 4;
    DivMod(p, size);
    DivMod(q, size);
    if p / size <= q / size {
      MulMono(p / size, q / size, size);
      MulComm(p / size, size);
      MulComm(q / size, size);
    } else {
      MulMono(q / size + 1, p / size, size);
      MulComm(p / size, size);
      DistAdd(size, q / size, 1);
      MulComm(q / size + 1, size);
    }
  }

  lemma StepKeepsInv(size: GroupSize, gDag: seq<Word>, s: State, lid: nat)
    requires |gDag| >= 4096 && Shaped(size, s) && lid < size && Inv(size, gDag, s)
    ensures Inv(size, gDag, Step(size, gDag, s, lid))
  {
    var s' := Step(size, gDag, s, lid);
    var p := s.at[lid];
    if p.w < 4096 {
      NextStripe(size, p.w);
      hide Owner, Add, Mul;
      assert p.w / 4 * 4 == p.w;
      forall a | 0 <= a < 4096 && a < s'.at[Owner(size, a)].w + s'.at[Owner(size, a)].i
        ensures s'.cDag[a] == gDag[a]
      {
        if a != p.w + p.i && Owner(size, a) == lid && p.w + p.i < a {
          OwnerIs(size, a);
          StripesApart(size, p.w, a);
        }
      }
    }
  }

  lemma OwnerIs(size: GroupSize, a: nat)
    ensures Owner(size, a) == a / 4 % size
  {
  }

  lemma {:induction false} RunKeepsInv(size: GroupSize, gDag: seq<Word>, before: CacheWords, schedule: seq<nat>)
    requires |gDag| >= 4096 && Legal(size, schedule)
    ensures Inv(size, gDag, Run(size, gDag, before, schedule))
  {
    hide Inv, Step;
    if schedule == [] {
      StartInv(size, gDag, before);
    } else {
      var last := |schedule| - 1;
      RunKeepsInv(size, gDag, before, schedule[..last]);
      StepKeepsInv(size, gDag, Run(size, gDag, before, schedule[..last]), schedule[last]);
    }
  }

  lemma StartInv(size: GroupSize, gDag: seq<Word>, before: CacheWords)
    requires |gDag| >= 4096
    ensures Shaped(size, Start(size, before)) && Inv(size, gDag, Start(size, before))
  {
    StartShaped(size, before);
    var s := Start(size, before);
    forall a | 0 <= a < 4096
      ensures s.at[Owner(size, a)].w + s.at[Owner(size, a)].i <= a
    {
      BelowOwnStripe(a / 4, size);
      OwnStripe(Owner(size, a), size);
    }
  }

  lemma OwnStripe(lid: nat, size: GroupSize)
    requires lid < size
    ensures Mul(lid, 4) == 4 * lid
  {
  }

  lemma BelowOwnStripe(q: nat, size: nat)
    requires size > 0
    ensures q % size <= q
  {
    DivMod(q, size);
  }

  /** When every invocation has left its loop, whatever the interleaving, shared memory holds exactly
      the first 4096 words of the DAG. */
  lemma PreloadComplete(size: GroupSize, gDag: seq<Word>, before: CacheWords, schedule: seq<nat>)
    requires |gDag| >= 4096 && Legal(size, schedule)
    requires forall lid :: 0 <= lid < size ==> Run(size, gDag, before, schedule).at[lid].w >= 4096
    ensures Run(size, gDag, before, schedule).cDag == gDag[..4096]
  {
    RunKeepsInv(size, gDag, before, schedule);
    hide Run, Owner;
    var s := Run(size, gDag, before, schedule);
    forall a | 0 <= a < 4096
      ensures s.cDag[a] == gDag[a]
    {
      assert s.at[Owner(size, a)].w >= 4096;
    }
  }

  // ---- every schedule can be completed ----

  /** Words left to an invocation, counting generously. */
  function Rest(p: Place): nat { if p.w >= 4096 then 0 else if p.i < 4 then 4 * (4096 - p.w) + 4 - p.i else 1 }

  function TotalRest(at: seq<Place>): nat { if at == [] then 0 else TotalRest(at[..|at| - 1]) + Rest(at[|at| - 1]) }

  lemma {:induction false} TotalRestUpdate(at: seq<Place>, l: nat, p: Place)
    requires l < |at|
    ensures TotalRest(at[l := p]) == TotalRest(at) + Rest(p) - Rest(at[l])
  {
    hide Rest;
    var last := |at| - 1;
    if l < last {
      TotalRestUpdate(at[..last], l, p);
      assert at[l := p][..last] == at[..last][l := p];
    } else {
      assert at[l := p][..last] == at[..last];
    }
  }

  lemma StepMakesProgress(size: GroupSize, gDag: seq<Word>, s: State, lid: nat)
    requires |gDag| >= 4096 && Shaped(size, s) && lid < size && s.at[lid].w < 4096
    ensures TotalRest(Step(size, gDag, s, lid).at) < TotalRest(s.at)
  {
    NextStripe(size, s.at[lid].w);
    hide TotalRest, Add, Mul;
    TotalRestUpdate(s.at, lid, Step(size, gDag, s, lid).at[lid]);
    assert Step(size, gDag, s, lid).at == s.at[lid := Step(size, gDag, s, lid).at[lid]];
  }

  lemma RunStep(size: GroupSize, gDag: seq<Word>, before: CacheWords, schedule: seq<nat>, lid: nat)
    requires |gDag| >= 4096 && Legal(size, schedule) && lid < size
    ensures Legal(size, schedule + [lid])
    ensures Run(size, gDag, before, schedule + [lid]) == Step(size, gDag, Run(size, gDag, before, schedule), lid)
  {
    hide Step;
    assert (schedule + [lid])[..|schedule|] == schedule;
  }

  /** Any schedule can be continued until every invocation has left its loop. */
  lemma CanFinish(size: GroupSize, gDag: seq<Word>, before: CacheWords, schedule: seq<nat>) returns (more: seq<nat>)
    requires |gDag| >= 4096 && Legal(size, schedule)
    ensures Legal(size, schedule + more)
    ensures forall lid :: 0 <= lid < size ==> Run(size, gDag, before, schedule + more).at[lid].w >= 4096
    decreases TotalRest(Run(size, gDag, before, schedule).at)
  {
    hide Run, Step, TotalRest;
    var s := Run(size, gDag, before, schedule);
    if lid: nat :| lid < size && s.at[lid].w < 4096 {
      StepMakesProgress(size, gDag, s, lid);
      RunStep(size, gDag, before, schedule, lid);
      more := CanFinish(size, gDag, before, schedule + [lid]);
      assert schedule + [lid] + more == schedule + ([lid] + more);
      more := [lid] + more;
    } else {
      more := [];
      assert schedule + [] == schedule;
    }
  }
}
