/** What every generated program looks like, for every seed. */
module ProgramStructure {
  import opened Words
  import opened Kiss99
  import opened ProgPow

  /** Every register occurs exactly once. */
  ghost predicate IsPermutation(s: Order) {
    && (forall i, j :: 0 <= i < j < 32 ==> s[i] != s[j])
    && (forall r: Reg :: r in s)
  }

  lemma SwapKeepsPermutation(s: Order, i: Reg, j: Reg)
    requires IsPermutation(s)
    ensures IsPermutation(Swap(s, i, j))
  {
    var t := Swap(s, i, j);
    forall r: Reg
      ensures r in t
    {
      assert r in s;
      var k :| 0 <= k < 32 && s[k] == r;
      assert t[if k == i then j else if k == j then i else k] == r;
    }
  }

  /** At every step a shuffle is a permutation of the 32 registers. */
  lemma {:induction false} ShuffleKeepsPermutation(draw: nat -> Word, n: nat)
    requires n <= 31
    ensures IsPermutation(ShuffledBy(draw, n))
  {
    if n > 0 {
      ShuffleKeepsPermutation(draw, n - 1);
      SwapKeepsPermutation(ShuffledBy(draw, n - 1), 32 - n, draw(n - 1) % (33 - n));
    } else {
      forall r: Reg
        ensures r in Identity()
      {
        assert Identity()[r] == r;
      }
    }
  }

  /** Both interleaved shuffles of the generator are permutations of the 32 registers. */
  lemma ShuffledIsPermutation(k: Kiss, first: nat, n: nat)
    requires n <= 31
    ensures IsPermutation(Shuffled(k, first, n))
  {
    ShuffleKeepsPermutation((j: nat) => Draw(k, first + 2 * j), n);
    hide ShuffledBy, IsPermutation, Draw;
  }

  // ---- every order is reached, by one choice at each step ----

  /** The place that step `k` exchanges with place `31 - k`: any of the places up to it. */
  function Choice(draw: nat -> Word, k: nat): (j: nat)
    requires k < 31
    ensures j <= 31 - k
  {
    draw(k) % (32 - k)
  }

  lemma ShuffleByChoice(draw: nat -> Word, n: nat)
    requires 0 < n <= 31
    ensures ShuffledBy(draw, n) == Swap(ShuffledBy(draw, n - 1), 32 - n, Choice(draw, n - 1))
  {
    hide Swap;
  }

  lemma SwapAt(s: Order, i: Reg, j: Reg)
    ensures Swap(s, i, j)[i] == s[j]
  {
  }

  /** The place of a register. */
  lemma Find(s: Order, r: Reg) returns (p: nat)
    requires IsPermutation(s)
    ensures p < 32 && s[p] == r
  {
    assert r in s;
    p :| 0 <= p < 32 && s[p] == r;
  }

  /** A place that has been filled stays as it is. */
  lemma {:induction false} PlaceStays(draw: nat -> Word, n: nat, m: nat, p: nat)
    requires n <= m <= 31 && 32 - n <= p < 32
    ensures ShuffledBy(draw, m)[p] == ShuffledBy(draw, n)[p]
  {
    hide ShuffledBy, Choice;
    if n < m {
      PlaceStays(draw, n, m - 1, p);
      ShuffleByChoice(draw, m);
    }
  }

  /** Different choices lead to different orders. */
  lemma {:induction false} ChoicesTell(draw: nat -> Word, other: nat -> Word, n: nat)
    requires n <= 31 && ShuffledBy(draw, 31) == ShuffledBy(other, 31)
    ensures ShuffledBy(draw, n) == ShuffledBy(other, n)
    ensures forall k :: 0 <= k < n ==> Choice(draw, k) == Choice(other, k)
  {
    NothingChosen(draw);
    NothingChosen(other);
    hide ShuffledBy, Choice, Swap;
    if n > 0 {
      ChoicesTell(draw, other, n - 1);
      ShuffleByChoice(draw, n);
      ShuffleByChoice(other, n);
      PlaceStays(draw, n, 31, 32 - n);
      PlaceStays(other, n, 31, 32 - n);
      ShuffleKeepsPermutation(draw, n - 1);
      var s := ShuffledBy(draw, n - 1);
      SwapAt(s, 32 - n, Choice(draw, n - 1));
      SwapAt(s, 32 - n, Choice(other, n - 1));
      assert s[Choice(draw, n - 1)] == s[Choice(other, n - 1)];
    }
  }

  lemma NothingChosen(draw: nat -> Word)
    ensures ShuffledBy(draw, 0) == Identity()
  {
  }

  /** Draws that make given choices. */
  function From(choices: seq<Word>): nat -> Word { (k: nat) => if k < |choices| then choices[k] else 0 }

  lemma {:induction false} SameDraws(draw: nat -> Word, other: nat -> Word, n: nat)
    requires n <= 31 && forall k :: 0 <= k < n ==> draw(k) == other(k)
    ensures ShuffledBy(draw, n) == ShuffledBy(other, n)
  {
    hide Swap;
    if n > 0 {
      SameDraws(draw, other, n - 1);
    }
  }

  /** The top `n` places can be given any values that an order has there. */
  lemma {:induction false} Reach(target: Order, n: nat) returns (choices: seq<Word>)
    requires IsPermutation(target) && n <= 31
    ensures |choices| == n && forall p :: 32 - n <= p < 32 ==> ShuffledBy(From(choices), n)[p] == target[p]
  {
    if n == 0 {
      choices := [];
      return;
    }
    var c := Reach(target, n - 1);
    var i := 32 - n;
    ShuffleKeepsPermutation(From(c), n - 1);
    hide ShuffledBy, From, Choice;
    var s := ShuffledBy(From(c), n - 1);
    var p := Find(s, target[i]);
    assert p <= i;
    choices := c + [p];
    FromPrefix(c, p);
    SameDraws(From(choices), From(c), n - 1);
    ChoiceOf(choices, n, p);
    ShuffleByChoice(From(choices), n);
  }

  lemma FromPrefix(c: seq<Word>, p: Word)
    ensures forall k :: 0 <= k < |c| ==> From(c + [p])(k) == From(c)(k)
  {
  }

  lemma ChoiceOf(choices: seq<Word>, n: nat, p: nat)
    requires 0 < n <= 31 && |choices| == n && p <= 32 - n && choices[n - 1] == p
    ensures Choice(From(choices), n - 1) == p
  {
    assert p % (33 - n) == p;
  }

  /** Every permutation of the 32 registers is the shuffle of some draws, and of one sequence of choices
      only. */
  lemma EveryOrderReached(target: Order)
    requires IsPermutation(target)
    ensures exists draw: nat -> Word :: ShuffledBy(draw, 31) == target
    ensures forall draw: nat -> Word, other: nat -> Word, k ::
              ShuffledBy(draw, 31) == target && ShuffledBy(other, 31) == target && 0 <= k < 31 ==> Choice(draw, k) == Choice(other, k)
  {
    var choices := Reach(target, 31);
    ShuffleKeepsPermutation(From(choices), 31);
    hide ShuffledBy, Choice, From;
    var s := ShuffledBy(From(choices), 31);
    var q := Find(s, target[0]);
    assert q == 0;
    assert s == target;
    forall draw: nat -> Word, other: nat -> Word, k | ShuffledBy(draw, 31) == target && ShuffledBy(other, 31) == target && 0 <= k < 31
      ensures Choice(draw, k) == Choice(other, k)
    {
      ChoicesTell(draw, other, 31);
    }
  }

  /** Exchanging every place with itself leaves the registers in order. */
  lemma {:induction false} IdentityReached(draw: nat -> Word, n: nat)
    requires n <= 31 && forall k :: 0 <= k < n ==> Choice(draw, k) == 31 - k
    ensures ShuffledBy(draw, n) == Identity()
  {
    hide Choice;
    if n > 0 {
      IdentityReached(draw, n - 1);
      ShuffleByChoice(draw, n);
    }
  }

  /** The numbers below 32 * 31 stand for the ordered pairs of different registers, each exactly once. */
  lemma SourcesBijective(s1: Reg, s2: Reg)
    requires s1 != s2
    ensures var v := s1 + 32 * (if s2 > s1 then s2 - 1 else s2); 0 <= v < 992 && Sources(v) == (s1, s2)
    ensures forall v, w :: 0 <= v < 992 && 0 <= w < 992 && Sources(v) == Sources(w) ==> v == w
  {
    var v := s1 + 32 * (if s2 > s1 then s2 - 1 else s2);
    assert v % 32 == s1 && v / 32 == if s2 > s1 then s2 - 1 else s2;
    assert Sources(v) == (s1, s2);
    forall v, w | 0 <= v < 992 && 0 <= w < 992 && Sources(v) == Sources(w)
      ensures v == w
    {
      assert v == 32 * (v / 32) + v % 32 && w == 32 * (w / 32) + w % 32;
    }
  }

  /** The destinations taken from the shuffled order, in program order: all but the fixed first DAG merge. */
  function Dests(ops: seq<Op>): seq<Reg> {
    if ops == [] then []
    else
      (match ops[0]
       case Global => []
       case Cache(_, dst, _) => [dst]
       case Math(_, _, dst, _, _) => [dst]
       case DagMerge(dst, i, _) => if i == 0 then [] else [dst])
      + Dests(ops[1..])
  }

  lemma {:induction false} DestsConcat(a: seq<Op>, b: seq<Op>)
    ensures Dests(a + b) == Dests(a) + Dests(b)
  {
    if a == [] {
      assert a + b == b;
    } else {
      assert (a + b)[1..] == a[1..] + b;
      DestsConcat(a[1..], b);
    }
  }

  /** The first `n` destinations in shuffled order, starting over after 32. */
  function InOrder(p: Setting, n: nat): seq<Reg> { seq(n, (k: nat) requires k < n => DestAt(p, k)) }
  function DestAt(p: Setting, n: nat): Reg { p.DstOrder()[n % 32] }

  lemma DestsOfRound(p: Setting, i: nat)
    ensures InOrder(p, p.OpsBefore(i)) + Dests(p.RoundOps(i)) == InOrder(p, p.OpsBefore(i + 1))
  {
    RoundDests(p, i);
    OpsGrow(p, i);
    var n := p.OpsBefore(i);
    OrderGrows(p, n);
    OrderGrows(p, n + 1);
    hide InOrder, Dests, Setting.RoundOps, Setting.OpsBefore, DestAt;
    Appended(InOrder(p, n), DestAt(p, n), DestAt(p, n + 1));
  }

  lemma Appended(o: seq<Reg>, d: Reg, e: Reg)
    ensures o + [d, e] == o + [d] + [e] && o + [] == o
  {
  }

  lemma OpsGrow(p: Setting, i: nat)
    ensures p.OpsBefore(i + 1) == p.OpsBefore(i) + (if i < p.cache then 1 else 0) + (if i < p.math then 1 else 0)
  {
  }

  /** A round takes the next one or two destinations of the shuffled order. */
  lemma RoundDests(p: Setting, i: nat)
    ensures var n := p.OpsBefore(i);
            Dests(p.RoundOps(i)) ==
            if i < p.cache && i < p.math then [DestAt(p, n), DestAt(p, n + 1)]
            else if i < p.cache || i < p.math then [DestAt(p, n)]
            else []
  {
    hide Setting.DstOrder, Setting.SrcOrder, Setting.OpsBefore, Setting.DrawsBefore, Sources, Draw;
    if i < p.cache && i < p.math {
      TwoDests(p.CacheOp(i), p.MathOp(i));
    } else if i < p.cache {
      OneDest(p.CacheOp(i));
    } else if i < p.math {
      OneDest(p.MathOp(i));
    }
  }

  lemma OneDest(op: Op)
    requires op.Cache? || op.Math?
    ensures Dests([op]) == [op.dst]
  {
    assert [op][1..] == [];
  }

  lemma TwoDests(a: Op, b: Op)
    requires a.Cache? && b.Math?
    ensures Dests([a] + [b]) == [a.dst, b.dst]
  {
    DestsConcat([a], [b]);
    OneDest(a);
    OneDest(b);
    hide Dests;
  }

  lemma OrderGrows(p: Setting, n: nat)
    ensures InOrder(p, n + 1) == InOrder(p, n) + [DestAt(p, n)]
  {
    hide DestAt;
  }

  lemma {:induction false} DestsOfMain(p: Setting, n: nat)
    ensures Dests(p.MainOps(n)) == InOrder(p, p.OpsBefore(n))
  {
    hide Setting.RoundOps, Shuffled, Setting.DstOrder, DestAt;
    if n > 0 {
      hide Dests, InOrder, Setting.OpsBefore;
      DestsOfMain(p, n - 1);
      DestsConcat(p.MainOps(n - 1), p.RoundOps(n - 1));
      DestsOfRound(p, n - 1);
    }
  }

  /** The destinations of any program walk the shuffled order: `cache + math + 3` of them. */
  lemma DestsOfProgram(p: Setting)
    ensures Dests(p.Ops()) == InOrder(p, p.cache + p.math + 3)
  {
    hide Shuffled, Draw, Setting.MainOps, Dests;
    assert Dests([Global]) == [] by { DestsOfGlobal(); }
    var n := if p.cache <= p.math then p.math else p.cache;
    var tail := [p.Merge(0), p.Merge(1), p.Merge(2), p.Merge(3)];
    DestsOfMain(p, n);
    DestsConcat([Global], p.MainOps(n));
    DestsConcat([Global] + p.MainOps(n), tail);
    DestsOfTail(p.Merge(0), p.Merge(1), p.Merge(2), p.Merge(3));
  }

  lemma DestsOfGlobal()
    ensures Dests([Global]) == []
  {
  }

  lemma DestsOfTail(m0: Op, m1: Op, m2: Op, m3: Op)
    requires m0.DagMerge? && m1.DagMerge? && m2.DagMerge? && m3.DagMerge?
    requires m0.i == 0 && m1.i != 0 && m2.i != 0 && m3.i != 0
    ensures Dests([m0, m1, m2, m3]) == [m1.dst, m2.dst, m3.dst]
  {
    DestsConcat([m0], [m1, m2, m3]);
    DestsConcat([m1], [m2, m3]);
    DestsConcat([m2], [m3]);
    assert [m0, m1, m2, m3] == [m0] + ([m1] + ([m2] + [m3]));
    assert [m1, m2, m3] == [m1] + [m2, m3] && [m2, m3] == [m2] + [m3];
  }

  lemma {:induction false} MainLength(p: Setting, n: nat)
    ensures |p.MainOps(n)| == p.OpsBefore(n)
    ensures forall op :: op in p.MainOps(n) ==> op.Cache? || op.Math?
  {
    hide Shuffled, Draw, Sources;
    if n > 0 {
      MainLength(p, n - 1);
    }
  }

  /** One DAG load first, the four DAG merges last, cache and math operations between. */
  lemma ProgramShape(p: Setting)
    ensures var ops, n := p.Ops(), p.cache + p.math;
            && |ops| == n + 5 && ops[0] == Global
            && (forall k :: 1 <= k <= n ==> ops[k].Cache? || ops[k].Math?)
            && (forall k :: n < k < n + 5 ==> ops[k].DagMerge? && ops[k].i == k - n - 1)
            && ops[n + 1].dst == 0
  {
    hide Shuffled, Draw, Setting.MainOps;
    MainLength(p, if p.cache <= p.math then p.math else p.cache);
  }

  /** The KawPow counts use every register once as a sequence destination; the first DAG merge
      writes register 0 once more. */
  lemma KawPowWritesEveryRegister(seed: U64)
    ensures var ops := Program(seed, CNT_CACHE, CNT_MATH);
            && |Dests(ops)| == 32 && IsPermutation(Dests(ops))
            && |ops| == 34 && ops[30].DagMerge? && ops[30].dst == 0 && ops[30].i == 0
  {
    hide Shuffled, Draw, IsPermutation, Setting.Ops, Setting.MainOps, Dests, Seeded;
    var p := SettingOf(seed, CNT_CACHE, CNT_MATH);
    DestsOfProgram(p);
    assert InOrder(p, 32) == p.DstOrder();
    ShuffledIsPermutation(p.k, 0, 31);
    ProgramShape(p);
  }
}
