/** Lanes that run one program at their own pace and meet only at shuffles. */
module Simt {
  /** The meaning of instructions: private ones change a lane's own state; at a shuffle every lane
      publishes a value and receives the value of a lane of its choice. */
  datatype Machine<!I, !S, !V> = Machine(
    isShuffle: I -> bool,
    local: (nat, I, S) -> S,
    publish: (nat, I, S) -> V,
    source: (nat, I, S) -> nat,
    receive: (nat, I, S, V) -> S)

  // ---- lockstep ----

  /** What lane `lane` receives; a source outside the subgroup yields the lane's own value. */
  function Received<I, S, V>(m: Machine<I, S, V>, i: I, states: seq<S>, lane: nat): V
    requires lane < |states|
  {
    var src := m.source(lane, i, states[lane]);
    if src < |states| then m.publish(src, i, states[src]) else m.publish(lane, i, states[lane])
  }

  /** All lanes execute instruction `i` together. */
  function Together<I, S, V>(m: Machine<I, S, V>, i: I, states: seq<S>): (r: seq<S>)
    ensures |r| == |states|
  {
    if m.isShuffle(i) then
      seq(|states|, (l: nat) requires l < |states| => m.receive(l, i, states[l], Received(m, i, states, l)))
    else seq(|states|, (l: nat) requires l < |states| => m.local(l, i, states[l]))
  }

  function Lockstep<I, S, V>(m: Machine<I, S, V>, code: seq<I>, states: seq<S>): (r: seq<S>)
    ensures |r| == |states|
  {
    if code == [] then states
    else Together(m, code[|code| - 1], Lockstep(m, code[..|code| - 1], states))
  }

  lemma {:induction false} LockstepConcat<I, S, V>(m: Machine<I, S, V>, a: seq<I>, b: seq<I>, states: seq<S>)
    ensures Lockstep(m, a + b, states) == Lockstep(m, b, Lockstep(m, a, states))
  {
    hide Together;
    if b == [] {
      assert a + b == a;
    } else {
      var last := |b| - 1;
      assert (a + b)[..|a| + last] == a + b[..last];
      LockstepConcat(m, a, b[..last], states);
    }
  }

  lemma LockstepOne<I, S, V>(m: Machine<I, S, V>, i: I, states: seq<S>)
    ensures Lockstep(m, [i], states) == Together(m, i, states)
  {
    hide Together;
    assert [i][..0] == [];
    assert Lockstep(m, [], states) == states;
  }

  // ---- interleavings ----

  datatype Config<S> = Config(pcs: seq<nat>, states: seq<S>)

  /** The scheduler lets one lane take a private step, or all lanes meet at a shuffle. */
  datatype Event = Private(lane: nat) | Meet

  function Start<S>(states: seq<S>): Config<S> { Config(seq(|states|, _ => 0), states) }

  predicate Shaped<I, S>(code: seq<I>, c: Config<S>) {
    |c.pcs| == |c.states| > 0 && forall l :: 0 <= l < |c.pcs| ==> c.pcs[l] <= |code|
  }

  predicate Enabled<I, S, V>(m: Machine<I, S, V>, code: seq<I>, c: Config<S>, e: Event)
    requires Shaped(code, c)
  {
    match e
    case Private(lane) => lane < |c.pcs| && c.pcs[lane] < |code| && !m.isShuffle(code[c.pcs[lane]])
    case Meet =>
      && c.pcs[0] < |code| && m.isShuffle(code[c.pcs[0]])
      && forall l :: 0 <= l < |c.pcs| ==> c.pcs[l] == c.pcs[0]
  }

  function Step<I, S, V>(m: Machine<I, S, V>, code: seq<I>, c: Config<S>, e: Event): (d: Config<S>)
    requires Shaped(code, c) && Enabled(m, code, c, e)
    ensures Shaped(code, d)
  {
    match e
    case Private(lane) =>
      Config(c.pcs[lane := c.pcs[lane] + 1], c.states[lane := m.local(lane, code[c.pcs[lane]], c.states[lane])])
    case Meet =>
      Config(seq(|c.pcs|, _ => c.pcs[0] + 1), Together(m, code[c.pcs[0]], c.states))
  }

  /** `d` is reached from `c` by the events of a schedule, each enabled when it occurs. */
  ghost predicate Reaches<I, S, V>(m: Machine<I, S, V>, code: seq<I>, c: Config<S>, schedule: seq<Event>, d: Config<S>)
    requires Shaped(code, c)
    decreases schedule
  {
    if schedule == [] then c == d
    else Enabled(m, code, c, schedule[0]) && Reaches(m, code, Step(m, code, c, schedule[0]), schedule[1..], d)
  }

  predicate Finished<I, S>(code: seq<I>, c: Config<S>) { forall l :: 0 <= l < |c.pcs| ==> c.pcs[l] == |code| }

  /** Each lane is where the lockstep run was after as many instructions; and between any two lanes
      there is no shuffle. */
  ghost predicate Inv<I, S, V>(m: Machine<I, S, V>, code: seq<I>, init: seq<S>, c: Config<S>) {
    && Shaped(code, c) && |c.states| == |init|
    && (forall l :: 0 <= l < |init| ==> c.states[l] == Lockstep(m, code[..c.pcs[l]], init)[l])
    && (forall l, k, p :: 0 <= l < |init| && 0 <= k < |init| && c.pcs[l] <= p < c.pcs[k] ==> !m.isShuffle(code[p]))
  }

  lemma LockstepNext<I, S, V>(m: Machine<I, S, V>, code: seq<I>, p: nat, init: seq<S>)
    requires p < |code|
    ensures Lockstep(m, code[..p + 1], init) == Together(m, code[p], Lockstep(m, code[..p], init))
  {
    hide Together;
    assert code[..p + 1][..p] == code[..p];
  }

  lemma StepKeepsInv<I, S, V>(m: Machine<I, S, V>, code: seq<I>, init: seq<S>, c: Config<S>, e: Event)
    requires Inv(m, code, init, c) && Enabled(m, code, c, e)
    ensures Inv(m, code, init, Step(m, code, c, e))
  {
    hide Lockstep;
    match e
    case Private(lane) =>
      LockstepNext(m, code, c.pcs[lane], init);
    case Meet =>
      LockstepNext(m, code, c.pcs[0], init);
      assert c.states == Lockstep(m, code[..c.pcs[0]], init);
  }

  lemma StartInv<I, S, V>(m: Machine<I, S, V>, code: seq<I>, init: seq<S>)
    requires |init| > 0
    ensures Inv(m, code, init, Start(init))
  {
    assert code[..0] == [];
  }

  lemma {:induction false} ReachesKeepsInv<I, S, V>(m: Machine<I, S, V>, code: seq<I>, init: seq<S>, c: Config<S>, schedule: seq<Event>, d: Config<S>)
    requires Inv(m, code, init, c) && Reaches(m, code, c, schedule, d)
    ensures Inv(m, code, init, d)
    decreases schedule
  {
    hide Step, Enabled;
    if schedule != [] {
      StepKeepsInv(m, code, init, c, schedule[0]);
      ReachesKeepsInv(m, code, init, Step(m, code, c, schedule[0]), schedule[1..], d);
    }
  }

  /** Confluence: every finished interleaving ends in the one state of the lockstep run. */
  lemma Confluence<I, S, V>(m: Machine<I, S, V>, code: seq<I>, init: seq<S>, schedule: seq<Event>, d: Config<S>)
    requires |init| > 0 && Reaches(m, code, Start(init), schedule, d) && Finished(code, d)
    ensures d.states == Lockstep(m, code, init)
  {
    hide Lockstep;
    StartInv(m, code, init);
    ReachesKeepsInv(m, code, init, Start(init), schedule, d);
    assert code[..|code|] == code;
  }

  /** No interleaving gets stuck: while a lane has work left, some event is enabled. */
  lemma NoDeadlock<I, S, V>(m: Machine<I, S, V>, code: seq<I>, init: seq<S>, schedule: seq<Event>, d: Config<S>)
    requires |init| > 0 && Reaches(m, code, Start(init), schedule, d) && !Finished(code, d)
    ensures Shaped(code, d) && exists e :: Enabled(m, code, d, e)
  {
    StartInv(m, code, init);
    ReachesKeepsInv(m, code, init, Start(init), schedule, d);
    hide Lockstep, Reaches;
    if e: nat :| e < |d.pcs| && d.pcs[e] < |code| && !m.isShuffle(code[d.pcs[e]]) {
      assert Enabled(m, code, d, Private(e));
    } else {
      var l: nat :| l < |d.pcs| && d.pcs[l] != |code|;
      forall k | 0 <= k < |d.pcs|
        ensures d.pcs[k] == d.pcs[l]
      {
        assert m.isShuffle(code[d.pcs[l]]);
      }
      assert Enabled(m, code, d, Meet);
    }
  }

  function Total(pcs: seq<nat>): nat { if pcs == [] then 0 else Total(pcs[..|pcs| - 1]) + pcs[|pcs| - 1] }

  lemma {:induction false} TotalUpdate(pcs: seq<nat>, l: nat, p: nat)
    requires l < |pcs|
    ensures Total(pcs[l := p]) == Total(pcs) + p - pcs[l]
  {
    var last := |pcs| - 1;
    if l < last {
      TotalUpdate(pcs[..last], l, p);
      assert pcs[l := p][..last] == pcs[..last][l := p];
    } else {
      assert pcs[l := p][..last] == pcs[..last];
    }
  }

  lemma {:induction false} TotalMono(a: seq<nat>, b: seq<nat>)
    requires |a| == |b| > 0 && forall l :: 0 <= l < |a| ==> a[l] < b[l]
    ensures Total(a) < Total(b)
  {
    if |a| > 1 {
      TotalMono(a[..|a| - 1], b[..|b| - 1]);
    }
  }

  /** Every event does work, so every run is finite. */
  lemma StepMakesProgress<I, S, V>(m: Machine<I, S, V>, code: seq<I>, c: Config<S>, e: Event)
    requires Shaped(code, c) && Enabled(m, code, c, e)
    ensures Total(Step(m, code, c, e).pcs) > Total(c.pcs)
  {
    hide Total;
    match e
    case Private(lane) => TotalUpdate(c.pcs, lane, c.pcs[lane] + 1);
    case Meet => TotalMono(c.pcs, Step(m, code, c, e).pcs);
  }
}
