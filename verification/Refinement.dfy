/** The search shader computes the sequential hash: every lane, every interleaving. */
module Refinement {
  import opened Words
  import opened Options
  import opened ProgPow
  import opened Interpreter
  import opened Entropy
  import opened Glsl
  import opened GlslText
  import opened GlslExec
  import opened Hash
  import opened Simt
  import opened Shader
  import opened Render

  /** A launch of the shader for a setup of the hash. */
  ghost predicate Matches(k: Launch, setup: Setup) {
    && k.perm == setup.perm && k.variant == setup.variant && k.cDag == setup.cdag
    && k.dagElements == setup.dagElements && DagMatches(k.gDag, setup.rows, k.dagElements)
    && |k.gids| == 32 && LoadsFirst(setup.ops)
  }

  /** The registers of the half-subgroup that starts at lane `b`. */
  function GroupMix(states: seq<Shader.Lane>, b: nat): Lanes
    requires b + 16 <= |states|
  {
    var lanes := seq<Regs>(16, (j: nat) requires j < 16 => states[b + j].frame.mix);
    lanes
  }

  lemma GroupRange(lane: nat)
    requires lane < 32
    ensures SgBase(lane) + 16 <= 32 && SgBase(lane) + LaneId(lane) == lane && LaneId(lane) < 16
  {
  }

  lemma GroupMember(lane: nat, j: nat)
    requires lane < 32 && j < 16
    ensures SgBase(lane) + j < 32 && SgBase(SgBase(lane) + j) == SgBase(lane) && LaneId(SgBase(lane) + j) == j
  {
  }

  // ---- private statements ----

  lemma {:induction false} BodyConcat(l: Word, a: seq<Stmt>, b: seq<Stmt>)
    ensures BodyCode(l, a + b) == BodyCode(l, a) + BodyCode(l, b)
  {
    if b == [] {
      assert a + b == a;
    } else {
      var last := |b| - 1;
      assert (a + b)[..|a| + last] == a + b[..last];
      BodyConcat(l, a, b[..last]);
      Cat3(BodyCode(l, a), BodyCode(l, b[..last]), [Body(l, b[last])]);
    }
  }

  /** A private statement changes only the lane's frame. */
  lemma TogetherPrivate(k: Launch, l: Word, st: Stmt, states: seq<Shader.Lane>, lane: nat)
    requires |k.gids| == 32 == |states| && lane < 32 && !IsShuffle(st)
    requires Exec(EnvOf(k, lane, l), states[lane].frame, st).Some?
    ensures Together(Subgroup(k), Body(l, st), states)[lane]
            == states[lane].(frame := Exec(EnvOf(k, lane, l), states[lane].frame, st).value)
  {
    hide Exec;
  }

  ghost predicate NoShuffle(stmts: seq<Stmt>) { forall i :: 0 <= i < |stmts| ==> !IsShuffle(stmts[i]) }

  /** Private statements in lockstep are each lane running them alone. */
  lemma {:induction false} LockstepPrivate(k: Launch, l: Word, stmts: seq<Stmt>, states: seq<Shader.Lane>, lane: nat)
    requires |k.gids| == 32 == |states| && lane < 32 && NoShuffle(stmts)
    requires ExecAll(EnvOf(k, lane, l), states[lane].frame, stmts).Some?
    ensures Lockstep(Subgroup(k), BodyCode(l, stmts), states)[lane]
            == states[lane].(frame := ExecAll(EnvOf(k, lane, l), states[lane].frame, stmts).value)
  {
    hide Exec, Together, Subgroup;
    if stmts != [] {
      var last := |stmts| - 1;
      LockstepPrivate(k, l, stmts[..last], states, lane);
      var mid := Lockstep(Subgroup(k), BodyCode(l, stmts[..last]), states);
      TogetherPrivate(k, l, stmts[last], mid, lane);
      assert BodyCode(l, stmts)[..|BodyCode(l, stmts)| - 1] == BodyCode(l, stmts[..last]);
    }
  }

  // ---- which statements are private ----

  lemma DeclarationsPrivate(env: Env, f: Frame)
    ensures NoShuffle(Declarations()) && ExecAll(env, f, Declarations()) == Some(f)
  {
    assert Declarations()[..1] == [Declarations()[0]];
    ExecTwo(env, f, f, Declarations());
  }

  lemma OpPrivate(op: Op)
    requires !op.Global?
    ensures NoShuffle(OpStmts(op))
  {
    hide MathSel, MergeSel;
  }

  lemma {:induction false} OpsPrivate(ops: seq<Op>)
    requires forall j :: 0 <= j < |ops| ==> !ops[j].Global?
    ensures NoShuffle(OpsStmts(ops))
  {
    hide OpStmts, IsShuffle;
    if ops != [] {
      OpsPrivate(ops[..|ops| - 1]);
      OpPrivate(ops[|ops| - 1]);
    }
  }

  lemma PrivateStmtsPrivate(ops: seq<Op>)
    requires LoadsFirst(ops)
    ensures NoShuffle(PrivateStmts(ops))
  {
    LoadsPrivate();
    OpsPrivate(ops[1..]);
    hide LoadStmts, OpsStmts, IsShuffle;
  }

  lemma LoadsPrivate()
    ensures NoShuffle(LoadStmts())
  {
  }

  // ---- the broadcast of the DAG entry ----

  /** Where every lane reads from: lane `loop mod 16` of its group. */
  function BroadcastSource(): Expr { Bin(Plus, V("sg_base"), Paren(Bin(Mod, V("loop"), V("PROGPOW_LANES")))) }

  lemma BroadcastParts(k: Launch, l: Word, states: seq<Shader.Lane>, lane: nat)
    requires |k.gids| == 32 == |states| && lane < 32
    ensures IsShuffle(ShuffleStmt())
    ensures Publish(k, lane, Body(l, ShuffleStmt()), states[lane]) == states[lane].frame.mix[0]
    ensures Source(k, lane, Body(l, ShuffleStmt()), states[lane]) == SgBase(lane) + l % 16
  {
    ShuffleShape();
    EvalMix(EnvOf(k, lane, l), states[lane].frame, 0);
    EvalBroadcastSource(k, l, states[lane].frame, lane);
    hide Eval, Mix, EnvOf, BroadcastSource, ShuffleStmt, SgBase, IsShuffle;
    SourceOf(k, lane, l, ShuffleStmt(), states[lane], BroadcastSource());
  }

  lemma ShuffleShape()
    ensures ShuffleStmt() == Assign(V("offset"), Call2("subgroupShuffle", Mix(0), BroadcastSource()))
    ensures IsShuffle(ShuffleStmt())
  {
  }

  lemma EvalBroadcastSource(k: Launch, l: Word, f: Frame, lane: nat)
    requires lane < 32
    ensures Eval(EnvOf(k, lane, l), f, BroadcastSource()) == Some(SgBase(lane) + l % 16)
  {
    var env := EnvOf(k, lane, l);
    GroupRange(lane);
    var m := Bin(Mod, V("loop"), V("PROGPOW_LANES"));
    assert Eval(env, f, V("loop")) == Some(l) && Eval(env, f, V("PROGPOW_LANES")) == Some(16);
    assert Eval(env, f, m) == Some(l % 16);
    assert Eval(env, f, Paren(m)) == Some(l % 16);
    assert Eval(env, f, V("sg_base")) == Some(SgBase(lane));
  }

  lemma SourceOf(k: Launch, lane: nat, l: Word, st: Stmt, s: Shader.Lane, p: Expr)
    requires lane < 32 && IsShuffle(st) && st.rhs.b == p && Eval(EnvOf(k, lane, l), s.frame, p).Some?
    ensures Source(k, lane, Body(l, st), s) == Eval(EnvOf(k, lane, l), s.frame, p).value
  {
    hide Eval, EnvOf, IsShuffle;
  }

  lemma BroadcastReceived(k: Launch, l: Word, s: Shader.Lane, lane: nat, v: Word)
    requires lane < 32
    ensures Receive(k, lane, Body(l, ShuffleStmt()), s, v) == s.(frame := s.frame.(offset := v))
  {
    assert Store(EnvOf(k, lane, l), s.frame, V("offset"), v) == Some(s.frame.(offset := v));
    assert ShuffleStmt().Assign? && ShuffleStmt().lhs == V("offset");
    hide Store, ShuffleStmt;
  }

  /** A shuffle, from the point of view of one lane. */
  lemma TogetherShuffle(k: Launch, i: Instr, states: seq<Shader.Lane>, lane: nat, src: nat)
    requires |k.gids| == 32 == |states| && lane < 32 && MeetsAt(i)
    requires Source(k, lane, i, states[lane]) == src < 32
    ensures Together(Subgroup(k), i, states)[lane] == Receive(k, lane, i, states[lane], Publish(k, src, i, states[src]))
  {
    hide MeetsAt, Source, Receive, Publish, LocalStep;
    var m := Subgroup(k);
    assert m.isShuffle(i) && m.source(lane, i, states[lane]) == src;
    assert Received(m, i, states, lane) == Publish(k, src, i, states[src]);
  }

  /** Every lane receives register 0 of lane `l mod 16` of its own group. */
  lemma TogetherBroadcast(k: Launch, l: Word, states: seq<Shader.Lane>, lane: nat)
    requires |k.gids| == 32 == |states| && lane < 32
    ensures SgBase(lane) + l % 16 < 32
    ensures Together(Subgroup(k), Body(l, ShuffleStmt()), states)[lane]
            == states[lane].(frame := states[lane].frame.(offset := states[SgBase(lane) + l % 16].frame.mix[0]))
  {
    GroupRange(lane);
    BroadcastParts(k, l, states, lane);
    BroadcastParts(k, l, states, SgBase(lane) + l % 16);
    BroadcastReceived(k, l, states[lane], lane, states[SgBase(lane) + l % 16].frame.mix[0]);
    hide ShuffleStmt, Publish, Source, Receive, LocalStep, SgBase, Together, Subgroup, IsShuffle;
    TogetherShuffle(k, Body(l, ShuffleStmt()), states, lane, SgBase(lane) + l % 16);
  }

  /** One `progPowLoop` in lockstep is one iteration of the interpreter on each group. */
  lemma OneLoop(k: Launch, setup: Setup, l: Word, states: seq<Shader.Lane>, lane: nat)
    requires Matches(k, setup) && |states| == 32 && lane < 32 && l < 64
    ensures SgBase(lane) + 16 <= 32 && LaneId(lane) < 16
    ensures var after := Lockstep(Subgroup(k), BodyCode(l, LoopStmts(setup.ops)), states)[lane];
            && after == states[lane].(frame := after.frame)
            && after.frame.mix == RunLoop(setup.ops, l, GroupMix(states, SgBase(lane)), setup.cdag, setup.rows,
                                          setup.dagElements)[LaneId(lane)]
  {
    GroupRange(lane);
    var m, ops := Subgroup(k), setup.ops;
    var s2 := Together(m, Body(l, ShuffleStmt()), states);
    hide Exec, Together, Subgroup, ShuffleStmt, PrivateStmts, LoopStmts, RunOps, RowIndex, DagMatches, SgBase, LaneId, IsShuffle;
    LoopStages(k, ops, l, states);
    TogetherBroadcast(k, l, states, lane);
    PrivateStmtsPrivate(ops);
    EnvFields(k, lane, l);
    PrivateRun(EnvOf(k, lane, l), s2[lane].frame, ops, setup.rows);
    LockstepPrivate(k, l, PrivateStmts(ops), s2, lane);
  }

  /** A loop body in lockstep: the declarations do nothing, all lanes meet once, the rest is private. */
  lemma LoopStages(k: Launch, ops: seq<Op>, l: Word, states: seq<Shader.Lane>)
    requires |k.gids| == 32 == |states| && LoadsFirst(ops)
    ensures Lockstep(Subgroup(k), BodyCode(l, LoopStmts(ops)), states)
            == Lockstep(Subgroup(k), BodyCode(l, PrivateStmts(ops)), Together(Subgroup(k), Body(l, ShuffleStmt()), states))
  {
    hide Exec, Together, Subgroup, ShuffleStmt, PrivateStmts, Declarations, LoopStmts, LoadsFirst;
    var m := Subgroup(k);
    LoopShape(ops);
    BodyConcat(l, Declarations() + [ShuffleStmt()], PrivateStmts(ops));
    BodyConcat(l, Declarations(), [ShuffleStmt()]);
    BodyOne(l, ShuffleStmt());
    var c1, c2, c3 := BodyCode(l, Declarations()), [Body(l, ShuffleStmt())], BodyCode(l, PrivateStmts(ops));
    LockstepConcat(m, c1 + c2, c3, states);
    LockstepConcat(m, c1, c2, states);
    AfterDeclarations(k, l, states);
    LockstepOne(m, Body(l, ShuffleStmt()), states);
  }

  lemma BodyOne(l: Word, st: Stmt)
    ensures BodyCode(l, [st]) == [Body(l, st)]
  {
    assert [st][..0] == [];
  }

  lemma EnvFields(k: Launch, lane: nat, l: Word)
    requires lane < 32
    ensures EnvOf(k, lane, l).laneId == LaneId(lane) < 16
  {
  }

  lemma AfterDeclarations(k: Launch, l: Word, states: seq<Shader.Lane>)
    requires |k.gids| == 32 == |states|
    ensures Lockstep(Subgroup(k), BodyCode(l, Declarations()), states) == states
  {
    hide Exec, Together, Subgroup, Declarations, EnvOf;
    forall lane | 0 <= lane < 32
      ensures Lockstep(Subgroup(k), BodyCode(l, Declarations()), states)[lane] == states[lane]
    {
      DeclarationsPrivate(EnvOf(k, lane, l), states[lane].frame);
      LockstepPrivate(k, l, Declarations(), states, lane);
    }
  }

  // ---- all 64 iterations ----

  /** From `states` to `after`, each group has run `n` iterations and nothing else has changed. */
  ghost predicate Looped(setup: Setup, n: nat, states: seq<Shader.Lane>, after: seq<Shader.Lane>)
    requires n <= 64 && |states| == 32 == |after|
  {
    forall lane :: 0 <= lane < 32 ==> LaneLooped(setup, n, states, after[lane], lane)
  }

  ghost predicate LaneLooped(setup: Setup, n: nat, states: seq<Shader.Lane>, after: Shader.Lane, lane: nat)
    requires n <= 64 && |states| == 32 && lane < 32
  {
    GroupRange(lane);
    && after == states[lane].(frame := after.frame)
    && after.frame.mix == RunLoops(setup.ops, n, GroupMix(states, SgBase(lane)), setup.cdag, setup.rows, setup.dagElements)[LaneId(lane)]
  }

  lemma LoopedGroup(setup: Setup, n: nat, states: seq<Shader.Lane>, after: seq<Shader.Lane>, lane: nat)
    requires n <= 64 && |states| == 32 == |after| && lane < 32 && Looped(setup, n, states, after)
    ensures SgBase(lane) + 16 <= 32
    ensures GroupMix(after, SgBase(lane)) == RunLoops(setup.ops, n, GroupMix(states, SgBase(lane)), setup.cdag, setup.rows, setup.dagElements)
  {
    GroupRange(lane);
    hide RunLoops, SgBase, LaneId;
    var b := SgBase(lane);
    var want := RunLoops(setup.ops, n, GroupMix(states, b), setup.cdag, setup.rows, setup.dagElements);
    forall j | 0 <= j < 16
      ensures GroupMix(after, b)[j] == want[j]
    {
      GroupMember(lane, j);
      assert LaneLooped(setup, n, states, after[b + j], b + j);
    }
  }

  lemma {:induction false} AllLoops(k: Launch, setup: Setup, n: nat, states: seq<Shader.Lane>)
    requires |k.gids| == 32 && Matches(k, setup) && |states| == 32 && n <= 64
    ensures Looped(setup, n, states, Lockstep(Subgroup(k), LoopsCode(n, LoopStmts(setup.ops)), states))
  {
    hide Together, Subgroup, LoopStmts, RunLoop, SgBase, LaneId, BodyCode, Matches;
    if n == 0 {
      forall lane | 0 <= lane < 32
        ensures LaneLooped(setup, 0, states, states[lane], lane)
      {
        GroupRange(lane);
      }
    } else {
      var c := LoopsCode(n - 1, LoopStmts(setup.ops));
      var mid := Lockstep(Subgroup(k), c, states);
      AllLoops(k, setup, n - 1, states);
      LockstepConcat(Subgroup(k), c, BodyCode(n - 1, LoopStmts(setup.ops)), states);
      forall lane | 0 <= lane < 32
        ensures LaneLooped(setup, n, states, Lockstep(Subgroup(k), LoopsCode(n, LoopStmts(setup.ops)), states)[lane], lane)
      {
        OneLoop(k, setup, n - 1, mid, lane);
        LoopedGroup(setup, n - 1, states, mid, lane);
        assert LaneLooped(setup, n - 1, states, mid[lane], lane);
      }
    }
  }

  // ---- the digest exchange ----

  /** Word `j` of a lane's accumulator after `n` broadcasts of its group. */
  function Partial(d: Eight, e: Eight, n: nat, j: nat): Word
    requires j < 8
  {
    if n <= j then FNV_OFFSET_BASIS
    else if n <= j + 8 then Fnv1a(FNV_OFFSET_BASIS, d[j])
    else Fnv1a(Fnv1a(FNV_OFFSET_BASIS, d[j]), e[j])
  }

  /** The digests of the first and the second eight lanes of a group. */
  function GroupDigests(states: seq<Shader.Lane>, b: nat): Eight
    requires b + 8 <= |states|
  {
    var d := seq<Word>(8, (j: nat) requires j < 8 => states[b + j].digestLane);
    d
  }

  lemma TogetherDigest(k: Launch, n: nat, states: seq<Shader.Lane>, lane: nat)
    requires |k.gids| == 32 == |states| && lane < 32 && n < 16
    ensures SgBase(lane) + n < 32
    ensures Together(Subgroup(k), ShareDigest(n), states)[lane]
            == states[lane].(dtmp := states[lane].dtmp[n % 8 := Fnv1a(states[lane].dtmp[n % 8], states[SgBase(lane) + n].digestLane)])
  {
    GroupMember(lane, n);
    hide SgBase, Fnv1a, Together, Subgroup;
    TogetherShuffle(k, ShareDigest(n), states, lane, SgBase(lane) + n);
  }

  /** From `states` to `after`, the accumulators have taken `n` broadcasts and nothing else has changed. */
  ghost predicate Digested(n: nat, states: seq<Shader.Lane>, after: seq<Shader.Lane>)
    requires |states| == 32 == |after|
  {
    forall lane :: 0 <= lane < 32 ==> LaneDigested(n, states, after[lane], lane)
  }

  ghost predicate LaneDigested(n: nat, states: seq<Shader.Lane>, after: Shader.Lane, lane: nat)
    requires |states| == 32 && lane < 32
  {
    GroupRange(lane);
    && after == states[lane].(dtmp := after.dtmp)
    && forall j :: 0 <= j < 8 ==>
         after.dtmp[j] == Partial(GroupDigests(states, SgBase(lane)), GroupDigests(states, SgBase(lane) + 8), n, j)
  }

  lemma NextPartial(d: Eight, e: Eight, n: nat, j: nat)
    requires j < 8 && n < 16
    ensures Partial(d, e, n + 1, j)
            == if j == n % 8 then Fnv1a(Partial(d, e, n, j), if n < 8 then d[n] else e[n - 8]) else Partial(d, e, n, j)
  {
    hide Fnv1a;
  }

  lemma NextDigest(n: nat, states: seq<Shader.Lane>, mid: seq<Shader.Lane>, after: Shader.Lane, lane: nat)
    requires |states| == 32 == |mid| && lane < 32 && n < 16 && Digested(n, states, mid)
    requires SgBase(lane) + n < 32
    requires after == mid[lane].(dtmp := mid[lane].dtmp[n % 8 := Fnv1a(mid[lane].dtmp[n % 8], mid[SgBase(lane) + n].digestLane)])
    ensures LaneDigested(n + 1, states, after, lane)
  {
    GroupRange(lane);
    hide Fnv1a, SgBase, Partial;
    var b := SgBase(lane);
    assert LaneDigested(n, states, mid[lane], lane) && LaneDigested(n, states, mid[b + n], b + n);
    forall j | 0 <= j < 8
      ensures after.dtmp[j] == Partial(GroupDigests(states, b), GroupDigests(states, b + 8), n + 1, j)
    {
      NextPartial(GroupDigests(states, b), GroupDigests(states, b + 8), n, j);
    }
    assert mid[b + n].digestLane == states[b + n].digestLane;
  }

  lemma {:induction false} DigestRun(k: Launch, n: nat, states: seq<Shader.Lane>)
    requires |k.gids| == 32 == |states| && n <= 16
    requires forall l, j :: 0 <= l < 32 && 0 <= j < 8 ==> states[l].dtmp[j] == FNV_OFFSET_BASIS
    ensures Digested(n, states, Lockstep(Subgroup(k), DigestCode(n), states))
  {
    hide Together, Subgroup, Fnv1a, SgBase;
    if n == 0 {
      forall lane | 0 <= lane < 32
        ensures LaneDigested(0, states, states[lane], lane)
      {
        GroupRange(lane);
      }
    } else {
      var mid := Lockstep(Subgroup(k), DigestCode(n - 1), states);
      DigestRun(k, n - 1, states);
      LockstepConcat(Subgroup(k), DigestCode(n - 1), [ShareDigest(n - 1)], states);
      LockstepOne(Subgroup(k), ShareDigest(n - 1), mid);
      var after := Together(Subgroup(k), ShareDigest(n - 1), mid);
      hide Digested, LaneDigested;
      forall lane | 0 <= lane < 32
        ensures LaneDigested(n, states, after[lane], lane)
      {
        TogetherDigest(k, n - 1, mid, lane);
        NextDigest(n - 1, states, mid, after[lane], lane);
      }
      CollectDigested(n, states, after);
    }
  }

  lemma CollectDigested(n: nat, states: seq<Shader.Lane>, after: seq<Shader.Lane>)
    requires |states| == 32 == |after|
    requires forall lane :: 0 <= lane < 32 ==> LaneDigested(n, states, after[lane], lane)
    ensures Digested(n, states, after)
  {
  }

  // ---- one hash of a group ----

  lemma Together1(k: Launch, i: Instr, states: seq<Shader.Lane>, lane: nat)
    requires |k.gids| == 32 == |states| && lane < 32 && !MeetsAt(i)
    ensures Together(Subgroup(k), i, states)[lane] == LocalStep(k, lane, i, states[lane])
  {
    hide LocalStep;
  }

  lemma TogetherSeeds(k: Launch, h: nat, states: seq<Shader.Lane>, lane: nat)
    requires |k.gids| == 32 == |states| && lane < 32 && h < 16
    ensures SgBase(lane) + h < 32
    ensures Together(Subgroup(k), ShareSeed0(h), states)[lane] == states[lane].(s0 := states[SgBase(lane) + h].state2[0])
    ensures Together(Subgroup(k), ShareSeed1(h), states)[lane] == states[lane].(s1 := states[SgBase(lane) + h].state2[1])
  {
    GroupMember(lane, h);
    hide SgBase, Together, Subgroup;
    TogetherShuffle(k, ShareSeed0(h), states, lane, SgBase(lane) + h);
    TogetherShuffle(k, ShareSeed1(h), states, lane, SgBase(lane) + h);
  }

  /** After the seed broadcasts and the fill, a group holds the initial registers of lane h's hash. */
  lemma SeedRun(k: Launch, h: nat, states: seq<Shader.Lane>, lane: nat)
    requires |k.gids| == 32 == |states| && lane < 32 && h < 16
    ensures SgBase(lane) + h < 32 && LaneId(lane) < 16
    ensures var after := Lockstep(Subgroup(k), [ShareSeed0(h), ShareSeed1(h), Fill], states)[lane];
            && after == states[lane].(s0 := after.s0, s1 := after.s1, frame := after.frame)
            && after.frame.mix == InitialLanes(SeedPair(states[SgBase(lane) + h].state2, k.variant))[LaneId(lane)]
  {
    GroupRange(lane);
    GroupMember(lane, h);
    hide Together, Subgroup, SgBase, LaneId, LocalStep, SeedPair, InitialLanes;
    var m := Subgroup(k);
    LockstepThree(m, ShareSeed0(h), ShareSeed1(h), Fill, states);
    var s1 := Together(m, ShareSeed0(h), states);
    TogetherSeeds(k, h, states, lane);
    TogetherSeeds(k, h, states, SgBase(lane) + h);
    TogetherSeeds(k, h, s1, lane);
    var s2 := Together(m, ShareSeed1(h), s1);
    Together1(k, Fill, s2, lane);
    FillStep(k, lane, s2[lane], states[SgBase(lane) + h].state2);
  }

  lemma FillStep(k: Launch, lane: nat, s: Shader.Lane, src: Eight)
    requires |k.gids| == 32 && lane < 32 && s.s0 == src[0] && s.s1 == src[1]
    ensures LaneId(lane) < 16
    ensures LocalStep(k, lane, Fill, s) == s.(frame := s.frame.(mix := InitialLanes(SeedPair(src, k.variant))[LaneId(lane)]))
  {
    GlslBswapAgrees(src[0]);
    GlslBswapAgrees(src[1]);
    hide FillMix, GlslBswap, Swab;
  }

  lemma LockstepThree<I, S, T>(m: Machine<I, S, T>, a: I, b: I, c: I, states: seq<S>)
    ensures Lockstep(m, [a, b, c], states) == Together(m, c, Together(m, b, Together(m, a, states)))
  {
    hide Together;
    assert [a, b, c] == [a, b] + [c] && [a, b] == [a] + [b];
    LockstepConcat(m, [a, b], [c], states);
    LockstepConcat(m, [a], [b], states);
    LockstepOne(m, a, states);
    LockstepOne(m, b, Together(m, a, states));
    LockstepOne(m, c, Together(m, b, Together(m, a, states)));
  }

  /** After hash `h`, lanes numbered `h` keep the digest of their own group's hash; seeds stay. */
  ghost predicate Hashed(setup: Setup, h: nat, states: seq<Shader.Lane>, after: Shader.Lane, lane: nat)
    requires |states| == 32 && lane < 32 && h < 16
  {
    GroupMember(lane, h);
    && after.state2 == states[lane].state2
    && after.digest == if h == LaneId(lane) then MixOf(setup, states[SgBase(lane) + h].state2) else states[lane].digest
  }

  lemma ReduceStep(k: Launch, states: seq<Shader.Lane>, lane: nat)
    requires |k.gids| == 32 == |states| && lane < 32
    ensures var after := Together(Subgroup(k), Reduce, states)[lane];
            && after == states[lane].(digestLane := LaneDigest(states[lane].frame.mix), dtmp := after.dtmp)
            && forall j :: 0 <= j < 8 ==> after.dtmp[j] == FNV_OFFSET_BASIS
  {
    hide Together, Subgroup, LaneDigest;
    Together1(k, Reduce, states, lane);
  }

  /** Sixteen broadcasts make the mix hash of the group. */
  lemma PartialIsMixHash(lanes: Lanes, d: Eight, e: Eight)
    requires forall j :: 0 <= j < 8 ==> d[j] == LaneDigest(lanes[j]) && e[j] == LaneDigest(lanes[j + 8])
    ensures forall j :: 0 <= j < 8 ==> Partial(d, e, 16, j) == MixHash(lanes)[j]
  {
    hide Fnv1a, LaneDigest;
  }

  /** The stages of one hash in lockstep. */
  ghost predicate Stages(k: Launch, stmts: seq<Stmt>, h: nat, s0: seq<Shader.Lane>, s1: seq<Shader.Lane>,
                         s2: seq<Shader.Lane>, s3: seq<Shader.Lane>, s4: seq<Shader.Lane>, s5: seq<Shader.Lane>)
    requires |k.gids| == 32
  {
    var m := Subgroup(k);
    && s1 == Lockstep(m, [ShareSeed0(h), ShareSeed1(h), Fill], s0)
    && s2 == Lockstep(m, LoopsCode(CNT_DAG, stmts), s1)
    && s3 == Together(m, Reduce, s2)
    && s4 == Lockstep(m, DigestCode(LANES), s3)
    && s5 == Together(m, Keep(h), s4)
  }

  lemma StagesOfOneHash(k: Launch, stmts: seq<Stmt>, h: nat, states: seq<Shader.Lane>)
    returns (s1: seq<Shader.Lane>, s2: seq<Shader.Lane>, s3: seq<Shader.Lane>, s4: seq<Shader.Lane>)
    requires |k.gids| == 32 == |states|
    ensures |s1| == |s2| == |s3| == |s4| == 32
    ensures Stages(k, stmts, h, states, s1, s2, s3, s4, Lockstep(Subgroup(k), OneHash(h, stmts), states))
  {
    var m := Subgroup(k);
    hide Subgroup, Lockstep, Together, LoopsCode, DigestCode;
    var c1, c2, c4 := [ShareSeed0(h), ShareSeed1(h), Fill], LoopsCode(CNT_DAG, stmts), DigestCode(LANES);
    LockstepConcat(m, c1 + c2 + [Reduce] + c4, [Keep(h)], states);
    LockstepConcat(m, c1 + c2 + [Reduce], c4, states);
    LockstepConcat(m, c1 + c2, [Reduce], states);
    LockstepConcat(m, c1, c2, states);
    s1 := Lockstep(m, c1, states);
    s2 := Lockstep(m, c2, s1);
    LockstepOne(m, Reduce, s2);
    s3 := Together(m, Reduce, s2);
    s4 := Lockstep(m, c4, s3);
    LockstepOne(m, Keep(h), s4);
  }

  lemma Reduced(k: Launch, s2: seq<Shader.Lane>, s3: seq<Shader.Lane>)
    requires |k.gids| == 32 == |s2| && s3 == Together(Subgroup(k), Reduce, s2)
    ensures forall l :: 0 <= l < 32 ==> s3[l] == s2[l].(digestLane := LaneDigest(s2[l].frame.mix), dtmp := s3[l].dtmp)
    ensures forall l, j :: 0 <= l < 32 && 0 <= j < 8 ==> s3[l].dtmp[j] == FNV_OFFSET_BASIS
  {
    hide Subgroup, Together, LaneDigest;
    forall l | 0 <= l < 32
      ensures s3[l] == s2[l].(digestLane := LaneDigest(s2[l].frame.mix), dtmp := s3[l].dtmp)
      ensures forall j :: 0 <= j < 8 ==> s3[l].dtmp[j] == FNV_OFFSET_BASIS
    {
      ReduceStep(k, s2, l);
    }
  }

  lemma OneHashRun(k: Launch, setup: Setup, h: nat, states: seq<Shader.Lane>, lane: nat)
    requires |k.gids| == 32 && Matches(k, setup) && |states| == 32 && lane < 32 && h < 16
    ensures Hashed(setup, h, states, Lockstep(Subgroup(k), OneHash(h, LoopStmts(setup.ops)), states)[lane], lane)
  {
    var s1, s2, s3, s4 := StagesOfOneHash(k, LoopStmts(setup.ops), h, states);
    hide Subgroup, LoopStmts, Lockstep, Together, LoopsCode, DigestCode, LaneDigest, SgBase, LaneId, SeedPair, InitialLanes,
      RunLoops, OneHash, MixOf, Looped, Digested, DagMatches, LoadsFirst, Hashed, LaneLooped, LaneDigested;
    AllLoops(k, setup, CNT_DAG, s1);
    Reduced(k, s2, s3);
    DigestRun(k, LANES, s3);
    HashOfGroup(k, setup, h, states, s1, s2, s3, s4, lane);
    LaneKept(k, h, states, lane);
    AtLane(setup, s1, s2, s3, s4, lane);
    KeptSame(setup, s1, s2, s3, s4, lane);
    KeepStep(k, h, s4, lane);
    HashedFrom(setup, h, states, s4[lane], Together(Subgroup(k), Keep(h), s4)[lane], lane);
  }

  lemma LaneKept(k: Launch, h: nat, states: seq<Shader.Lane>, lane: nat)
    requires |k.gids| == 32 == |states| && lane < 32 && h < 16
    ensures var after := Lockstep(Subgroup(k), [ShareSeed0(h), ShareSeed1(h), Fill], states)[lane];
            after.state2 == states[lane].state2 && after.digest == states[lane].digest
  {
    hide Lockstep, Subgroup, SeedPair, InitialLanes, SgBase, LaneId;
    SeedRun(k, h, states, lane);
  }

  lemma KeptSame(setup: Setup, s1: seq<Shader.Lane>, s2: seq<Shader.Lane>, s3: seq<Shader.Lane>, s4: seq<Shader.Lane>, lane: nat)
    requires |s1| == |s2| == |s3| == |s4| == 32 && lane < 32
    requires LaneLooped(setup, CNT_DAG, s1, s2[lane], lane) && LaneDigested(LANES, s3, s4[lane], lane)
    requires s3[lane] == s2[lane].(digestLane := LaneDigest(s2[lane].frame.mix), dtmp := s3[lane].dtmp)
    ensures s4[lane].state2 == s1[lane].state2 && s4[lane].digest == s1[lane].digest
  {
    hide LaneDigest, RunLoops, GroupMix, GroupDigests, Partial;
  }

  lemma KeepStep(k: Launch, h: nat, s4: seq<Shader.Lane>, lane: nat)
    requires |k.gids| == 32 == |s4| && lane < 32
    ensures Together(Subgroup(k), Keep(h), s4)[lane] == if h == LaneId(lane) then s4[lane].(digest := s4[lane].dtmp) else s4[lane]
  {
    hide Together, Subgroup, LaneId;
    Together1(k, Keep(h), s4, lane);
  }

  lemma HashedFrom(setup: Setup, h: nat, states: seq<Shader.Lane>, last: Shader.Lane, after: Shader.Lane, lane: nat)
    requires |states| == 32 && lane < 32 && h < 16 && SgBase(lane) + h < 32
    requires last.state2 == states[lane].state2 && last.digest == states[lane].digest
    requires last.dtmp == MixOf(setup, states[SgBase(lane) + h].state2)
    requires after == if h == LaneId(lane) then last.(digest := last.dtmp) else last
    ensures Hashed(setup, h, states, after, lane)
  {
    hide MixOf, SgBase, LaneId;
  }

  lemma AtLane(setup: Setup, s1: seq<Shader.Lane>, s2: seq<Shader.Lane>, s3: seq<Shader.Lane>, s4: seq<Shader.Lane>, lane: nat)
    requires |s1| == |s2| == |s3| == |s4| == 32 && lane < 32 && Looped(setup, CNT_DAG, s1, s2) && Digested(LANES, s3, s4)
    ensures LaneLooped(setup, CNT_DAG, s1, s2[lane], lane) && LaneDigested(LANES, s3, s4[lane], lane)
  {
    hide LaneLooped, LaneDigested;
  }

  /** The group's accumulator after the exchange is the mix hash for lane h's seed. */
  lemma HashOfGroup(k: Launch, setup: Setup, h: nat, states: seq<Shader.Lane>, s1: seq<Shader.Lane>, s2: seq<Shader.Lane>,
                    s3: seq<Shader.Lane>, s4: seq<Shader.Lane>, lane: nat)
    requires |k.gids| == 32 && k.variant == setup.variant
    requires |states| == |s1| == |s2| == |s3| == |s4| == 32 && lane < 32 && h < 16
    requires s1 == Lockstep(Subgroup(k), [ShareSeed0(h), ShareSeed1(h), Fill], states)
    requires Looped(setup, CNT_DAG, s1, s2) && Digested(LANES, s3, s4)
    requires forall l :: 0 <= l < 32 ==> s3[l].digestLane == LaneDigest(s2[l].frame.mix)
    ensures SgBase(lane) + h < 32
    ensures s4[lane].dtmp == MixOf(setup, states[SgBase(lane) + h].state2)
  {
    GroupRange(lane);
    GroupMember(lane, h);
    hide Subgroup, Lockstep, LaneDigest, MixHash, SgBase, LaneId, SeedPair, InitialLanes, RunLoops, MixOf, LaneLooped, Looped,
      Digested, LaneDigested, GroupMix, GroupDigests, Partial;
    var b := SgBase(lane);
    GroupInitial(k, h, states, s1, lane);
    LoopedGroup(setup, CNT_DAG, s1, s2, lane);
    AtLane(setup, s1, s2, s3, s4, lane);
    MixOfUnfold(setup, states[b + h].state2);
    DigestOfGroup(s2, s3, s4[lane], lane);
  }

  lemma MixOfUnfold(setup: Setup, state2: Eight)
    ensures MixOf(setup, state2)
            == MixHash(RunLoops(setup.ops, CNT_DAG, InitialLanes(SeedPair(state2, setup.variant)), setup.cdag, setup.rows, setup.dagElements))
  {
  }

  lemma DigestOfGroup(s2: seq<Shader.Lane>, s3: seq<Shader.Lane>, after: Shader.Lane, lane: nat)
    requires |s2| == 32 == |s3| && lane < 32 && LaneDigested(LANES, s3, after, lane)
    requires forall l :: 0 <= l < 32 ==> s3[l].digestLane == LaneDigest(s2[l].frame.mix)
    ensures SgBase(lane) + 16 <= 32
    ensures after.dtmp == MixHash(GroupMix(s2, SgBase(lane)))
  {
    GroupRange(lane);
    hide SgBase, LaneId, Partial, LaneDigest, MixHash;
    var b := SgBase(lane);
    var lanes, d, e := GroupMix(s2, b), GroupDigests(s3, b), GroupDigests(s3, b + 8);
    forall j | 0 <= j < 8
      ensures d[j] == LaneDigest(lanes[j]) && e[j] == LaneDigest(lanes[j + 8])
    {
      assert s3[b + (j + 8)].digestLane == LaneDigest(s2[b + (j + 8)].frame.mix);
    }
    PartialIsMixHash(lanes, d, e);
    assert after.dtmp == MixHash(lanes);
  }

  /** After the fill a group holds the initial registers of one hash. */
  lemma GroupInitial(k: Launch, h: nat, states: seq<Shader.Lane>, s1: seq<Shader.Lane>, lane: nat)
    requires |k.gids| == 32 == |states| == |s1| && lane < 32 && h < 16
    requires s1 == Lockstep(Subgroup(k), [ShareSeed0(h), ShareSeed1(h), Fill], states)
    ensures SgBase(lane) + 16 <= 32
    ensures GroupMix(s1, SgBase(lane)) == InitialLanes(SeedPair(states[SgBase(lane) + h].state2, k.variant))
  {
    GroupRange(lane);
    hide Subgroup, Lockstep, SgBase, LaneId, SeedPair, InitialLanes, GroupMix;
    var init := InitialLanes(SeedPair(states[SgBase(lane) + h].state2, k.variant));
    forall j | 0 <= j < 16
      ensures s1[SgBase(lane) + j].frame.mix == init[j]
    {
      MemberInitial(k, h, states, lane, j);
    }
    GroupMixIs(s1, SgBase(lane), init);
  }

  lemma MemberInitial(k: Launch, h: nat, states: seq<Shader.Lane>, lane: nat, j: nat)
    requires |k.gids| == 32 == |states| && lane < 32 && h < 16 && j < 16
    ensures SgBase(lane) + 16 <= 32
    ensures Lockstep(Subgroup(k), [ShareSeed0(h), ShareSeed1(h), Fill], states)[SgBase(lane) + j].frame.mix
            == InitialLanes(SeedPair(states[SgBase(lane) + h].state2, k.variant))[j]
  {
    GroupRange(lane);
    GroupMember(lane, j);
    hide Subgroup, Lockstep, SgBase, LaneId, SeedPair, InitialLanes;
    SeedMix(k, h, states, SgBase(lane) + j, SgBase(lane), j);
  }

  lemma SeedMix(k: Launch, h: nat, states: seq<Shader.Lane>, lane: nat, b: nat, j: nat)
    requires |k.gids| == 32 == |states| && lane < 32 && h < 16 && b == SgBase(lane) && j == LaneId(lane)
    ensures b + 16 <= 32 && j < 16
    ensures Lockstep(Subgroup(k), [ShareSeed0(h), ShareSeed1(h), Fill], states)[lane].frame.mix
            == InitialLanes(SeedPair(states[b + h].state2, k.variant))[j]
  {
    GroupRange(lane);
    hide Subgroup, Lockstep, SgBase, LaneId, SeedPair, InitialLanes;
    SeedRun(k, h, states, lane);
  }

  lemma GroupMixIs(states: seq<Shader.Lane>, b: nat, want: Lanes)
    requires b + 16 <= |states| && forall j :: 0 <= j < 16 ==> states[b + j].frame.mix == want[j]
    ensures GroupMix(states, b) == want
  {
  }

  // ---- the whole shader ----

  /** After `n` hashes, lanes numbered below `n` hold the mix hash of their own seed. */
  ghost predicate HashedBelow(setup: Setup, n: nat, states: seq<Shader.Lane>, after: Shader.Lane, lane: nat)
    requires |states| == 32 && lane < 32
  {
    && after.state2 == states[lane].state2
    && (LaneId(lane) < n ==> after.digest == MixOf(setup, states[lane].state2))
  }

  lemma {:induction false} HashesRun(k: Launch, setup: Setup, n: nat, states: seq<Shader.Lane>, lane: nat)
    requires |k.gids| == 32 && Matches(k, setup) && |states| == 32 && lane < 32 && n <= 16
    ensures HashedBelow(setup, n, states, Lockstep(Subgroup(k), Hashes(n, LoopStmts(setup.ops)), states)[lane], lane)
  {
    hide Subgroup, LoopStmts, Together, OneHash, MixOf, Matches, Lockstep, SgBase, LaneId;
    if n == 0 {
      assert Lockstep(Subgroup(k), [], states) == states by { LockstepNone(Subgroup(k), states); }
    } else {
      var c := Hashes(n - 1, LoopStmts(setup.ops));
      var mid := Lockstep(Subgroup(k), c, states);
      LockstepConcat(Subgroup(k), c, OneHash(n - 1, LoopStmts(setup.ops)), states);
      GroupRange(lane);
      GroupMember(lane, n - 1);
      HashesRun(k, setup, n - 1, states, lane);
      HashesRun(k, setup, n - 1, states, SgBase(lane) + (n - 1));
      OneHashRun(k, setup, n - 1, mid, lane);
    }
  }

  lemma LockstepNone(m: Machine<Instr, Shader.Lane, Word>, states: seq<Shader.Lane>)
    ensures Lockstep(m, [], states) == states
  {
  }

  /** The carry of the 64-bit addition, recovered by comparing the low words. */
  lemma NonceWords(k: Launch, gid: Word)
    ensures var nonce := (k.start + gid) % 0x1_0000_0000_0000_0000;
            NonceLo(k, gid) == nonce % 0x1_0000_0000 && NonceHi(k, gid) == nonce / 0x1_0000_0000
  {
    var lo, hi := k.start % 0x1_0000_0000, k.start / 0x1_0000_0000;
    hide Add;
    Carry(hi, lo, gid);
    assert NonceLo(k, gid) == Add(lo, gid);
  }

  lemma Carry(hi: Word, lo: Word, gid: Word)
    ensures var nonce := (hi * 0x1_0000_0000 + lo + gid) % 0x1_0000_0000_0000_0000;
            && Add(lo, gid) == nonce % 0x1_0000_0000
            && Add(hi, if Add(lo, gid) < lo then 1 else 0) == nonce / 0x1_0000_0000
  {
    var s := lo + gid;
    if s < 0x1_0000_0000 {
      assert Add(lo, gid) == s && !(s < lo);
    } else {
      assert Add(lo, gid) == s - 0x1_0000_0000 < lo;
    }
  }

  lemma BeginStep(k: Launch, states: seq<Shader.Lane>, lane: nat)
    requires |k.gids| == 32 == |states| && lane < 32
    ensures Together(Subgroup(k), Begin, states)[lane]
            == states[lane].(state2 := State2(k.perm, k.header, k.NonceOf(lane), k.variant))
  {
    NonceWords(k, k.gids[lane]);
    hide Together, Subgroup, NonceLo, NonceHi, SeedState;
    Together1(k, Begin, states, lane);
  }

  lemma FinishStep(k: Launch, setup: Setup, states: seq<Shader.Lane>, lane: nat)
    requires |k.gids| == 32 == |states| && lane < 32 && Matches(k, setup)
    ensures var after := Together(Subgroup(k), Finish, states)[lane];
            && after.digest == states[lane].digest
            && after.resultHi * 0x1_0000_0000 + after.resultLo == ResultOf(setup, k.header, states[lane].state2, states[lane].digest)
  {
    var s := states[lane];
    Together1(k, Finish, states, lane);
    FillsAgree(k, s);
    var st := k.perm(FinalFill(k, s));
    GlslBswapAgrees(st[0]);
    GlslBswapAgrees(st[1]);
    hide Together, Subgroup, GlslBswap, Swab, FinalFill, LastState, DagMatches, LoadsFirst;
  }

  lemma FillsAgree(k: Launch, s: Shader.Lane)
    ensures FinalFill(k, s) == LastState(k.variant, k.header, s.state2, Swab(s.state2[1]), Swab(s.state2[0]), s.digest)
  {
    GlslBswapAgrees(s.state2[0]);
    GlslBswapAgrees(s.state2[1]);
    hide GlslBswap, Swab;
  }

  /** What a lane must hold at the end: the sequential hash of its own nonce. */
  ghost predicate HoldsHash(k: Launch, setup: Setup, lane: nat, s: Shader.Lane)
    requires |k.gids| == 32 && lane < 32
  {
    (s.digest, s.resultHi * 0x1_0000_0000 + s.resultLo)
    == HashOne(setup, k.header, k.NonceOf(lane))
  }

  /** In lockstep every lane ends with the hash of its own nonce. */
  lemma LockstepHashes(k: Launch, setup: Setup, states: seq<Shader.Lane>, lane: nat)
    requires |k.gids| == 32 && Matches(k, setup) && |states| == 32 && lane < 32
    ensures HoldsHash(k, setup, lane, Lockstep(Subgroup(k), MainCode(LoopStmts(setup.ops)), states)[lane])
  {
    GroupRange(lane);
    var m := Subgroup(k);
    var s1 := Together(m, Begin, states);
    var s2 := Lockstep(m, Hashes(LANES, LoopStmts(setup.ops)), s1);
    var s3 := Together(m, Finish, s2);
    hide Subgroup, LoopStmts, Together, MixOf, Lockstep, Hashes, SgBase, State2, ResultOf, Matches, HoldsHash, HashedBelow, MainCode;
    MainStages(k, LoopStmts(setup.ops), states);
    BeginStep(k, states, lane);
    HashesRun(k, setup, LANES, s1, lane);
    MatchesSame(k, setup);
    FinishStep(k, setup, s2, lane);
    HoldsFrom(k, setup, lane, s1, s2[lane], s3[lane]);
  }

  lemma MatchesSame(k: Launch, setup: Setup)
    requires Matches(k, setup)
    ensures k.perm == setup.perm && k.variant == setup.variant
  {
  }

  lemma MainStages(k: Launch, stmts: seq<Stmt>, states: seq<Shader.Lane>)
    requires |k.gids| == 32
    ensures var m := Subgroup(k);
            Lockstep(m, MainCode(stmts), states) == Together(m, Finish, Lockstep(m, Hashes(LANES, stmts), Together(m, Begin, states)))
  {
    hide Subgroup, Together, Lockstep, Hashes;
    var m, c := Subgroup(k), Hashes(LANES, stmts);
    LockstepConcat(m, [Begin] + c, [Finish], states);
    LockstepConcat(m, [Begin], c, states);
    LockstepOne(m, Begin, states);
    LockstepOne(m, Finish, Lockstep(m, c, Together(m, Begin, states)));
  }

  lemma HoldsFrom(k: Launch, setup: Setup, lane: nat, s1: seq<Shader.Lane>, s: Shader.Lane, after: Shader.Lane)
    requires |k.gids| == 32 == |s1| && lane < 32 && k.perm == setup.perm && k.variant == setup.variant && LaneId(lane) < 16
    requires s1[lane].state2 == State2(k.perm, k.header, k.NonceOf(lane), k.variant)
    requires HashedBelow(setup, LANES, s1, s, lane) && after.digest == s.digest
    requires after.resultHi * 0x1_0000_0000 + after.resultLo == ResultOf(setup, k.header, s.state2, s.digest)
    ensures HoldsHash(k, setup, lane, after)
  {
    hide State2, MixOf, ResultOf, LaneId;
  }

  /** A finished run of the shader's lanes under some schedule. */
  ghost predicate RunsTo(k: Launch, stmts: seq<Stmt>, states: seq<Shader.Lane>, schedule: seq<Event>, d: Config<Shader.Lane>)
    requires |k.gids| == 32 == |states|
  {
    Reaches(Subgroup(k), MainCode(stmts), Start(states), schedule, d) && Finished(MainCode(stmts), d)
  }

  /** The search shader, its loop read from the rendered text, computes the sequential hash on every
      lane, however the lanes interleave. */
  lemma ShaderRefinesHash(k: Launch, setup: Setup, progSeed: nat, stmts: seq<Stmt>, states: seq<Shader.Lane>,
                          schedule: seq<Event>, d: Config<Shader.Lane>)
    requires |k.gids| == 32 && Matches(k, setup) && |states| == 32
    requires ParseLoop(LoopText(progSeed, setup.ops)) == Some(stmts)
    requires RunsTo(k, stmts, states, schedule, d)
    ensures |d.states| == 32 && forall lane :: 0 <= lane < 32 ==> HoldsHash(k, setup, lane, d.states[lane])
  {
    hide Subgroup, LoopText, ParseLoop, LoopStmts, Reaches, Finished, MainCode, HoldsHash, Matches, Lockstep;
    LoopTextParses(progSeed, setup.ops);
    Confluence(Subgroup(k), MainCode(stmts), states, schedule, d);
    forall lane | 0 <= lane < 32
      ensures HoldsHash(k, setup, lane, d.states[lane])
    {
      LockstepHashes(k, setup, states, lane);
    }
  }

  /** A run of the shader that is not finished can go on, so it ends with every lane's hash. */
  lemma ShaderNeverStuck(k: Launch, stmts: seq<Stmt>, states: seq<Shader.Lane>, schedule: seq<Event>, d: Config<Shader.Lane>)
    requires |k.gids| == 32 == |states|
    requires Reaches(Subgroup(k), MainCode(stmts), Start(states), schedule, d) && !Finished(MainCode(stmts), d)
    ensures Shaped(MainCode(stmts), d) && exists e :: Enabled(Subgroup(k), MainCode(stmts), d, e)
    ensures forall e :: Enabled(Subgroup(k), MainCode(stmts), d, e) ==>
              Total(Step(Subgroup(k), MainCode(stmts), d, e).pcs) > Total(d.pcs)
  {
    hide Subgroup, MainCode, Reaches, Finished, Enabled, Step, Total;
    NoDeadlock(Subgroup(k), MainCode(stmts), states, schedule, d);
    forall e | Enabled(Subgroup(k), MainCode(stmts), d, e)
      ensures Total(Step(Subgroup(k), MainCode(stmts), d, e).pcs) > Total(d.pcs)
    {
      StepMakesProgress(Subgroup(k), MainCode(stmts), d, e);
    }
  }

  // ---- the comparison with the target ----

  predicate ShaderAccepts(s: Shader.Lane, targetHi: Word, targetLo: Word) {
    s.resultHi < targetHi || (s.resultHi == targetHi && s.resultLo <= targetLo)
  }

  /** The host passes the target as two words. */
  predicate AcceptsAt(s: Shader.Lane, target: U64) {
    ShaderAccepts(s, target / 0x1_0000_0000, target % 0x1_0000_0000)
  }

  /** A lane reports a nonce exactly when its hash is at most the 64-bit target. */
  lemma AcceptsIff(k: Launch, setup: Setup, lane: nat, s: Shader.Lane, target: U64)
    requires |k.gids| == 32 && lane < 32 && HoldsHash(k, setup, lane, s)
    ensures AcceptsAt(s, target)
            <==> HashOne(setup, k.header, k.NonceOf(lane)).1 <= target
  {
    hide HashOne;
    CompareWords(s.resultHi, s.resultLo, target / 0x1_0000_0000, target % 0x1_0000_0000);
  }

  lemma CompareWords(aHi: Word, aLo: Word, bHi: Word, bLo: Word)
    ensures (aHi < bHi || (aHi == bHi && aLo <= bLo)) <==> aHi * 0x1_0000_0000 + aLo <= bHi * 0x1_0000_0000 + bLo
  {
  }
}
