/** keccak-f800: the round of sections 3.2.1 to 3.2.5 of FIPS 202 at lane width 32,
    and the in-place round of the source, which walks one 24-lane cycle for rho and pi. */
module Keccak {
  import opened Words

  /** Lane (x, y) of the standard's state is word `5y + x`. */
  type State = s: seq<Word> | |s| == 25 witness seq(25, _ => 0)

  function At(x: int, y: int): nat { 5 * (y % 5) + x % 5 }
  function Lane(a: State, x: int, y: int): Word { a[At(x, y)] }

  // ---- FIPS 202, section 3.2 ----

  /** Column parity of theta. */
  function C(a: State, x: int): Word {
    Xor(Xor(Xor(Xor(Lane(a, x, 0), Lane(a, x, 1)), Lane(a, x, 2)), Lane(a, x, 3)), Lane(a, x, 4))
  }

  function D(a: State, x: int): Word { Xor(C(a, x - 1), Rotl(C(a, x + 1), 1)) }

  function Theta(a: State): State { seq(25, (i: nat) requires i < 25 => Xor(a[i], D(a, i % 5))) }

  /** Rho moves from lane (x, y) to lane (y, 2x + 3y), starting at (1, 0). */
  function WalkNext(i: nat): nat { 5 * ((2 * (i % 5) + 3 * (i / 5)) % 5) + i / 5 }
  function WalkAt(t: nat): (i: nat)
    ensures i < 25
  {
    if t == 0 then 1 else WalkNext(WalkAt(t - 1))
  }

  /** The offset `(t + 1)(t + 2) / 2` of step t is `Triangle(t + 1)`. */
  function Triangle(n: nat): nat { if n == 0 then 0 else Triangle(n - 1) + n }

  function RhoSteps(a: State, n: nat): State {
    if n == 0 then a
    else RhoSteps(a, n - 1)[WalkAt(n - 1) := Rotl(a[WalkAt(n - 1)], Triangle(n))]
  }
  function Rho(a: State): State { RhoSteps(a, 24) }

  function Pi(a: State): State {
    seq(25, (i: nat) requires i < 25 => Lane(a, i % 5 + 3 * (i / 5), i % 5))
  }

  function ChiLane(a: State, x: int, y: int): Word {
    Xor(Lane(a, x, y), And(Not(Lane(a, x + 1, y)), Lane(a, x + 2, y)))
  }
  function Chi(a: State): State { seq(25, (i: nat) requires i < 25 => ChiLane(a, i % 5, i / 5)) }

  /** The shift register of algorithm 5. */
  datatype Lfsr = Lfsr(r0: bool, r1: bool, r2: bool, r3: bool, r4: bool, r5: bool, r6: bool, r7: bool) {
    function Next(): Lfsr { Lfsr(r7, r0, r1, r2, r3 != r7, r4 != r7, r5 != r7, r6) }
  }
  function LfsrAt(t: nat): Lfsr {
    if t == 0 then Lfsr(true, false, false, false, false, false, false, false) else LfsrAt(t - 1).Next()
  }
  function Rc(t: nat): bool { LfsrAt(t).r0 }

  /** Algorithm 6 with l = 5: bit `2^j - 1` of the round constant is `Rc(j + 7 * round)`. */
  function RoundConstant(round: nat): Word {
    (if Rc(7 * round) then 1 else 0) + (if Rc(7 * round + 1) then 2 else 0)
    + (if Rc(7 * round + 2) then 8 else 0) + (if Rc(7 * round + 3) then 0x80 else 0)
    + (if Rc(7 * round + 4) then 0x8000 else 0) + (if Rc(7 * round + 5) then 0x8000_0000 else 0)
  }
  function Iota(a: State, round: nat): State { a[0 := Xor(a[0], RoundConstant(round))] }

  function Round(a: State, round: nat): State { Iota(Chi(Pi(Rho(Theta(a)))), round) }

  function Rounds(a: State, n: nat): State { if n == 0 then a else Round(Rounds(a, n - 1), n - 1) }

  function KeccakF800(a: State): State { Rounds(a, 22) }

  // ---- the tables of the source ----

  function Piln(i: nat): nat {
    match i
    case 0 => 10
    case 1 => 7
    case 2 => 11
    case 3 => 17
    case 4 => 18
    case 5 => 3
    case 6 => 5
    case 7 => 16
    case 8 => 8
    case 9 => 21
    case 10 => 24
    case 11 => 4
    case 12 => 15
    case 13 => 23
    case 14 => 19
    case 15 => 13
    case 16 => 12
    case 17 => 2
    case 18 => 20
    case 19 => 14
    case 20 => 22
    case 21 => 9
    case 22 => 6
    case _ => 1
  }

  function Rotc(i: nat): nat {
    match i
    case 0 => 1
    case 1 => 3
    case 2 => 6
    case 3 => 10
    case 4 => 15
    case 5 => 21
    case 6 => 28
    case 7 => 36
    case 8 => 45
    case 9 => 55
    case 10 => 2
    case 11 => 14
    case 12 => 27
    case 13 => 41
    case 14 => 56
    case 15 => 8
    case 16 => 25
    case 17 => 43
    case 18 => 62
    case 19 => 18
    case 20 => 39
    case 21 => 61
    case 22 => 20
    case _ => 44
  }

  function Rndc(i: nat): Word {
    match i
    case 0 => 0x0000_0001
    case 1 => 0x0000_8082
    case 2 => 0x0000_808A
    case 3 => 0x8000_8000
    case 4 => 0x0000_808B
    case 5 => 0x8000_0001
    case 6 => 0x8000_8081
    case 7 => 0x0000_8009
    case 8 => 0x0000_008A
    case 9 => 0x0000_0088
    case 10 => 0x8000_8009
    case 11 => 0x8000_000A
    case 12 => 0x8000_808B
    case 13 => 0x0000_008B
    case 14 => 0x0000_8089
    case 15 => 0x0000_8003
    case 16 => 0x0000_8002
    case 17 => 0x0000_0080
    case 18 => 0x0000_800A
    case 19 => 0x8000_000A
    case 20 => 0x8000_8081
    case 21 => 0x0000_8080
    case 22 => 0x8000_0001
    case _ => 0x8000_8008
  }

  /** The step at which rho's walk reaches a lane. */
  function StepOf(i: nat): nat {
    match i
    case 0 => 24
    case 1 => 0
    case 2 => 18
    case 3 => 6
    case 4 => 12
    case 5 => 7
    case 6 => 23
    case 7 => 2
    case 8 => 9
    case 9 => 22
    case 10 => 1
    case 11 => 3
    case 12 => 17
    case 13 => 16
    case 14 => 20
    case 15 => 13
    case 16 => 8
    case 17 => 4
    case 18 => 5
    case 19 => 15
    case 20 => 19
    case 21 => 10
    case 22 => 21
    case 23 => 14
    case _ => 11
  }

  lemma PilnStep(t: nat)
    requires t < 23
    ensures Piln(t + 1) == WalkNext(Piln(t))
  {
    match t
    case 0 => assert Piln(1) == WalkNext(Piln(0));
    case 1 => assert Piln(2) == WalkNext(Piln(1));
    case 2 => assert Piln(3) == WalkNext(Piln(2));
    case 3 => assert Piln(4) == WalkNext(Piln(3));
    case 4 => assert Piln(5) == WalkNext(Piln(4));
    case 5 => assert Piln(6) == WalkNext(Piln(5));
    case 6 => assert Piln(7) == WalkNext(Piln(6));
    case 7 => assert Piln(8) == WalkNext(Piln(7));
    case 8 => assert Piln(9) == WalkNext(Piln(8));
    case 9 => assert Piln(10) == WalkNext(Piln(9));
    case 10 => assert Piln(11) == WalkNext(Piln(10));
    case 11 => assert Piln(12) == WalkNext(Piln(11));
    case 12 => assert Piln(13) == WalkNext(Piln(12));
    case 13 => assert Piln(14) == WalkNext(Piln(13));
    case 14 => assert Piln(15) == WalkNext(Piln(14));
    case 15 => assert Piln(16) == WalkNext(Piln(15));
    case 16 => assert Piln(17) == WalkNext(Piln(16));
    case 17 => assert Piln(18) == WalkNext(Piln(17));
    case 18 => assert Piln(19) == WalkNext(Piln(18));
    case 19 => assert Piln(20) == WalkNext(Piln(19));
    case 20 => assert Piln(21) == WalkNext(Piln(20));
    case 21 => assert Piln(22) == WalkNext(Piln(21));
    case 22 => assert Piln(23) == WalkNext(Piln(22));
  }

  /** `PILN` lists the walk from its second lane on, and the walk closes after 24 steps. */
  lemma {:induction false} PilnIsWalk(t: nat)
    requires t < 24
    ensures WalkAt(t) == if t == 0 then 1 else Piln(t - 1)
    ensures WalkAt(t + 1) == Piln(t)
  {
    hide Piln, WalkNext, WalkAt;
    WalkStep(t);
    WalkStarts();
    if t > 0 {
      PilnIsWalk(t - 1);
      PilnStep(t - 1);
    }
  }

  lemma WalkStep(t: nat)
    ensures WalkAt(t + 1) == WalkNext(WalkAt(t))
  {
    hide WalkNext;
  }

  lemma WalkStarts()
    ensures WalkAt(0) == 1 && WalkNext(1) == Piln(0)
  {
  }

  lemma StepTable(k: nat)
    requires k < 24
    ensures Piln(k) < 25 && StepOf(Piln(k)) == if k == 23 then 0 else k + 1
  {
  }

  lemma LaneTable(j: nat)
    requires 1 <= j < 25
    ensures StepOf(j) < 24 && j == if StepOf(j) == 0 then 1 else Piln(StepOf(j) - 1)
  {
  }

  /** The walk does not come back to a lane within 24 steps. */
  lemma StepAt(t: nat)
    requires t < 24
    ensures StepOf(WalkAt(t)) == t
  {
    PilnIsWalk(t);
    StepTable(if t == 0 then 23 else t - 1);
  }

  lemma RotcIsTriangular(t: nat)
    requires t < 24
    ensures Rotc(t) == Triangle(t + 1) % 64
  {
    assert Triangle(4) == 10 && Triangle(8) == 36 && Triangle(12) == 78;
    assert Triangle(16) == 136 && Triangle(20) == 210 && Triangle(24) == 300;
  }

  /** Seven steps of the register, whose first six outputs make one round constant. */
  function AfterRound(r: Lfsr): Lfsr { r.Next().Next().Next().Next().Next().Next().Next() }

  function Outputs(r: Lfsr): Word {
    (if r.r0 then 1 else 0) + (if r.Next().r0 then 2 else 0)
    + (if r.Next().Next().r0 then 8 else 0) + (if r.Next().Next().Next().r0 then 0x80 else 0)
    + (if r.Next().Next().Next().Next().r0 then 0x8000 else 0)
    + (if r.Next().Next().Next().Next().Next().r0 then 0x8000_0000 else 0)
  }

  lemma LfsrRound(t: nat)
    ensures LfsrAt(t + 7) == AfterRound(LfsrAt(t))
    ensures Rc(t) == LfsrAt(t).r0 && Rc(t + 1) == LfsrAt(t).Next().r0
    ensures Rc(t + 2) == LfsrAt(t).Next().Next().r0
    ensures Rc(t + 3) == LfsrAt(t).Next().Next().Next().r0
    ensures Rc(t + 4) == LfsrAt(t).Next().Next().Next().Next().r0
    ensures Rc(t + 5) == LfsrAt(t).Next().Next().Next().Next().Next().r0
  {
    assert LfsrAt(t + 2) == LfsrAt(t + 1).Next();
    assert LfsrAt(t + 3) == LfsrAt(t + 2).Next();
    assert LfsrAt(t + 4) == LfsrAt(t + 3).Next();
    assert LfsrAt(t + 5) == LfsrAt(t + 4).Next();
    assert LfsrAt(t + 6) == LfsrAt(t + 5).Next();
    assert LfsrAt(t + 7) == LfsrAt(t + 6).Next();
  }

  /** The register at the start of every round. */
  function RegisterAt(round: nat): Lfsr {
    match round
    case 0 => Lfsr(true, false, false, false, false, false, false, false)
    case 1 => Lfsr(false, false, false, false, false, false, false, true)
    case 2 => Lfsr(false, false, false, true, true, false, true, true)
    case 3 => Lfsr(false, true, false, true, true, false, false, false)
    case 4 => Lfsr(true, true, true, true, true, false, true, true)
    case 5 => Lfsr(true, false, false, true, false, false, false, false)
    case 6 => Lfsr(true, false, true, false, true, true, false, false)
    case 7 => Lfsr(true, true, true, true, false, false, true, false)
    case 8 => Lfsr(false, true, false, true, false, false, true, true)
    case 9 => Lfsr(false, false, false, false, true, true, true, false)
    case 10 => Lfsr(true, false, false, false, false, false, true, false)
    case 11 => Lfsr(false, false, true, true, false, true, true, true)
    case 12 => Lfsr(true, false, true, false, true, false, true, true)
    case 13 => Lfsr(true, false, true, true, false, false, true, true)
    case 14 => Lfsr(true, true, false, false, false, true, true, false)
    case 15 => Lfsr(true, true, false, true, false, true, false, true)
    case 16 => Lfsr(false, true, false, true, false, true, false, true)
    case 17 => Lfsr(false, true, false, true, false, true, false, false)
    case 18 => Lfsr(false, true, false, false, true, true, true, true)
    case 19 => Lfsr(false, false, false, true, false, true, true, true)
    case 20 => Lfsr(true, true, true, false, true, true, false, false)
    case _ => Lfsr(false, true, true, true, true, true, false, false)
  }

  lemma RegisterStep(round: nat)
    requires round < 21
    ensures RegisterAt(round + 1) == AfterRound(RegisterAt(round))
  {
    match round
    case 0 => assert RegisterAt(1) == AfterRound(RegisterAt(0));
    case 1 => assert RegisterAt(2) == AfterRound(RegisterAt(1));
    case 2 => assert RegisterAt(3) == AfterRound(RegisterAt(2));
    case 3 => assert RegisterAt(4) == AfterRound(RegisterAt(3));
    case 4 => assert RegisterAt(5) == AfterRound(RegisterAt(4));
    case 5 => assert RegisterAt(6) == AfterRound(RegisterAt(5));
    case 6 => assert RegisterAt(7) == AfterRound(RegisterAt(6));
    case 7 => assert RegisterAt(8) == AfterRound(RegisterAt(7));
    case 8 => assert RegisterAt(9) == AfterRound(RegisterAt(8));
    case 9 => assert RegisterAt(10) == AfterRound(RegisterAt(9));
    case 10 => assert RegisterAt(11) == AfterRound(RegisterAt(10));
    case 11 => assert RegisterAt(12) == AfterRound(RegisterAt(11));
    case 12 => assert RegisterAt(13) == AfterRound(RegisterAt(12));
    case 13 => assert RegisterAt(14) == AfterRound(RegisterAt(13));
    case 14 => assert RegisterAt(15) == AfterRound(RegisterAt(14));
    case 15 => assert RegisterAt(16) == AfterRound(RegisterAt(15));
    case 16 => assert RegisterAt(17) == AfterRound(RegisterAt(16));
    case 17 => assert RegisterAt(18) == AfterRound(RegisterAt(17));
    case 18 => assert RegisterAt(19) == AfterRound(RegisterAt(18));
    case 19 => assert RegisterAt(20) == AfterRound(RegisterAt(19));
    case 20 => assert RegisterAt(21) == AfterRound(RegisterAt(20));
  }

  lemma {:induction false} RegisterIsLfsr(round: nat)
    requires round < 22
    ensures LfsrAt(7 * round) == RegisterAt(round)
  {
    hide RegisterAt, LfsrAt, AfterRound;
    if round > 0 {
      RegisterIsLfsr(round - 1);
      RegisterStep(round - 1);
      LfsrRound(7 * (round - 1));
    } else {
      RegisterStarts();
    }
  }

  lemma RegisterStarts()
    ensures LfsrAt(0) == RegisterAt(0)
  {
  }

  lemma RndcOutputs(round: nat)
    requires round < 22
    ensures Rndc(round) == Outputs(RegisterAt(round))
  {
    match round
    case 0 => assert Rndc(0) == Outputs(RegisterAt(0));
    case 1 => assert Rndc(1) == Outputs(RegisterAt(1));
    case 2 => assert Rndc(2) == Outputs(RegisterAt(2));
    case 3 => assert Rndc(3) == Outputs(RegisterAt(3));
    case 4 => assert Rndc(4) == Outputs(RegisterAt(4));
    case 5 => assert Rndc(5) == Outputs(RegisterAt(5));
    case 6 => assert Rndc(6) == Outputs(RegisterAt(6));
    case 7 => assert Rndc(7) == Outputs(RegisterAt(7));
    case 8 => assert Rndc(8) == Outputs(RegisterAt(8));
    case 9 => assert Rndc(9) == Outputs(RegisterAt(9));
    case 10 => assert Rndc(10) == Outputs(RegisterAt(10));
    case 11 => assert Rndc(11) == Outputs(RegisterAt(11));
    case 12 => assert Rndc(12) == Outputs(RegisterAt(12));
    case 13 => assert Rndc(13) == Outputs(RegisterAt(13));
    case 14 => assert Rndc(14) == Outputs(RegisterAt(14));
    case 15 => assert Rndc(15) == Outputs(RegisterAt(15));
    case 16 => assert Rndc(16) == Outputs(RegisterAt(16));
    case 17 => assert Rndc(17) == Outputs(RegisterAt(17));
    case 18 => assert Rndc(18) == Outputs(RegisterAt(18));
    case 19 => assert Rndc(19) == Outputs(RegisterAt(19));
    case 20 => assert Rndc(20) == Outputs(RegisterAt(20));
    case 21 => assert Rndc(21) == Outputs(RegisterAt(21));
  }

  /** The constants of the source are those the standard's shift register generates. */
  lemma RndcFromLfsr(round: nat)
    requires round < 22
    ensures Rndc(round) == RoundConstant(round)
  {
    RegisterIsLfsr(round);
    RndcOutputs(round);
    LfsrRound(7 * round);
  }

  // ---- single lanes of each step ----

  lemma ThetaParts(a: State, i: nat)
    requires i < 5
    ensures C(a, i) == Xor(Xor(Xor(Xor(a[i], a[i + 5]), a[i + 10]), a[i + 15]), a[i + 20])
    ensures D(a, i) == Xor(C(a, (i + 4) % 5), Rotl(C(a, (i + 1) % 5), 1))
  {
    hide Xor, Rotl;
    ColumnAt(i);
    NeighbourColumns(i);
    SameColumn(a, i - 1, (i + 4) % 5);
    SameColumn(a, i + 1, (i + 1) % 5);
    hide At;
  }

  lemma ColumnAt(i: nat)
    requires i < 5
    ensures At(i, 0) == i && At(i, 1) == i + 5 && At(i, 2) == i + 10 && At(i, 3) == i + 15 && At(i, 4) == i + 20
  {
  }

  lemma NeighbourColumns(i: nat)
    requires i < 5
    ensures (i - 1) % 5 == (i + 4) % 5 % 5 && (i + 1) % 5 == (i + 1) % 5 % 5
  {
    if i == 0 {
      assert (0 - 1) % 5 == 4;
    }
  }

  lemma SameColumn(a: State, x: int, y: int)
    requires x % 5 == y % 5
    ensures C(a, x) == C(a, y)
  {
    hide Xor;
    assert forall k: int :: At(x, k) == At(y, k);
    hide At;
  }

  lemma ThetaLanes(a: State)
    ensures forall k :: 0 <= k < 25 ==> Theta(a)[k] == Xor(a[k], D(a, k % 5))
  {
    hide Xor, D;
  }

  lemma ChiAt(a: State, x: nat, y: nat)
    requires x < 5 && y < 5
    ensures Chi(a)[5 * y + x] == Xor(a[5 * y + x], And(Not(a[5 * y + (x + 1) % 5]), a[5 * y + (x + 2) % 5]))
  {
    hide Xor, And, Not;
    RowAt(x, y);
    ChiIsLane(a, 5 * y + x);
    hide At, Chi;
  }

  lemma RowAt(x: nat, y: nat)
    requires x < 5 && y < 5
    ensures At(x, y) == 5 * y + x && At(x + 1, y) == 5 * y + (x + 1) % 5 && At(x + 2, y) == 5 * y + (x + 2) % 5
    ensures (5 * y + x) % 5 == x && (5 * y + x) / 5 == y
  {
  }

  lemma ChiIsLane(a: State, k: nat)
    requires k < 25
    ensures Chi(a)[k] == ChiLane(a, k % 5, k / 5)
  {
    hide ChiLane;
  }

  /** The walk of the source visits 24 different lanes. */
  lemma PilnDistinct()
    ensures forall k :: 0 <= k < 24 ==> 0 < Piln(k) < 25 && StepOf(Piln(k)) == if k == 23 then 0 else k + 1
    ensures Piln(23) == 1
  {
    assert Piln(23) == 1;
    hide Piln, StepOf;
    forall k | 0 <= k < 24
      ensures 0 < Piln(k) < 25 && StepOf(Piln(k)) == if k == 23 then 0 else k + 1
    {
      StepTable(k);
      PilnPositive(k);
    }
  }

  /** The lane that rho and pi together put at place `j`. */
  lemma RhoStepsLane(a: State, n: nat, t: nat)
    requires t < n <= 24
    ensures RhoSteps(a, n)[WalkAt(t)] == Rotl(a[WalkAt(t)], Triangle(t + 1))
  {
    if t < n - 1 {
      RhoStepsLane(a, n - 1, t);
      StepAt(t);
      StepAt(n - 1);
    }
  }

  lemma {:induction false} RhoStepsOrigin(a: State, n: nat)
    requires n <= 24
    ensures RhoSteps(a, n)[0] == a[0]
  {
    if n > 0 {
      RhoStepsOrigin(a, n - 1);
      PilnIsWalk(n - 1);
      PilnPositive(n - 1);
    }
  }

  lemma PilnPositive(t: nat)
    requires t < 24
    ensures 0 < Piln(t) < 25
    ensures t > 0 ==> 0 < Piln(t - 1) < 25
  {
    StepTable(t);
  }

  /** Rotation amounts count modulo 32, so the table's reduction modulo 64 is harmless. */
  lemma RotlMod(x: Word, n: nat, m: nat)
    requires n % 64 == m
    ensures Rotl(x, n) == Rotl(x, m)
  {
    assert n % 32 == m % 32;
  }

  lemma PiSource(x: nat, y: nat, w: nat, q: nat)
    requires x < 5 && y < 5 && w < 5
    requires 2 * x + 3 * y == 5 * q + w
    ensures At(y + 3 * w, y) == 5 * y + x
    ensures (5 * w + y) % 5 == y && (5 * w + y) / 5 == w && 5 * w + y < 25
  {
    var k := x + 2 * y - 3 * q;
    assert y + 3 * w == x + 5 * k;
    WrapsTo(y + 3 * w, x, k);
    WrapsTo(5 * w + y, y, w);
    AtOf(y + 3 * w, x, y);
    hide At;
  }

  lemma AtOf(s: nat, x: nat, y: nat)
    requires x < 5 && y < 5 && s % 5 == x
    ensures At(s, y) == 5 * y + x
  {
  }

  lemma WrapsTo(s: nat, x: nat, k: int)
    requires x < 5 && s == x + 5 * k
    ensures s % 5 == x
  {
  }

  /** The lane that pi moves to place `j`. */
  function PiFrom(j: nat): (r: nat)
    ensures r < 25
  {
    At(j % 5 + 3 * (j / 5), j % 5)
  }

  /** Pi sends the lane of step t to the lane of step t + 1. */
  lemma PiMoves(a: State, i: nat, j: nat)
    requires i < 25 && j == WalkNext(i)
    ensures j < 25 && Pi(a)[j] == a[i]
  {
    WalkPlaces(i);
    hide WalkNext, Pi, PiFrom;
    PiIsLane(a, j);
  }

  lemma WalkPlaces(i: nat)
    requires i < 25
    ensures var j := WalkNext(i); j < 25 && PiFrom(j) == i
  {
    var x, y := i % 5, i / 5;
    var w, q := (2 * x + 3 * y) % 5, (2 * x + 3 * y) / 5;
    PiSource(x, y, w, q);
    hide At;
    assert WalkNext(i) == 5 * w + y;
  }

  lemma PiIsLane(a: State, j: nat)
    requires j < 25
    ensures Pi(a)[j] == a[PiFrom(j)]
  {
    hide At;
  }

  /** The lane the cycle walk reads at step t. */
  function Source(t: nat): nat { if t == 0 then 1 else Piln(t - 1) }

  lemma RhoPiLane(a: State, t: nat)
    requires t < 24
    ensures Source(t) < 25 && Piln(t) < 25
    ensures Pi(Rho(a))[Piln(t)] == Rotl(a[Source(t)], Rotc(t))
  {
    PilnPositive(t);
    PilnIsWalk(t);
    var i := WalkAt(t);
    PiMoves(Rho(a), i, Piln(t));
    RhoStepsLane(a, 24, t);
    RotcIsTriangular(t);
    RotlMod(a[i], Triangle(t + 1), Rotc(t));
  }

  lemma RhoPiOrigin(a: State)
    ensures Pi(Rho(a))[0] == a[0]
  {
    hide RhoSteps;
    RhoStepsOrigin(a, 24);
  }

  // ---- the number of rounds ----

  /** Section 3.3 of FIPS 202: 12 + 2l rounds for lanes of 2^l bits. */
  lemma RoundCount(a: State)
    ensures Bits.Pow2(5) == 32 && KeccakF800(a) == Rounds(a, 12 + 2 * 5)
  {
    Bits.Pow2Table();
    hide Rounds;
  }
}
