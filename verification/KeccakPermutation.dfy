/** keccak-f800 permutes the states: every step of the round has an inverse. */
module KeccakPermutation {
  import opened Bits
  import opened Words
  import opened Keccak

  // ---- theta: the column parities are spread by an invertible map ----

  type Columns = c: seq<Word> | |c| == 5 witness seq(5, _ => 0)

  /** `x + s` and `x - s` around a circle of `w` places. */
  function Plus(x: nat, s: nat, w: nat): nat { if x + s < w then x + s else x + s - w }
  function Minus(x: nat, s: nat, w: nat): nat
    requires s <= w
  {
    if s <= x then x - s else x + w - s
  }

  /** `1 + X^s + X^-s Z^n` on five columns of 32 bits: X turns the columns, Z turns the bits. */
  function Spread(c: Columns, s: nat, n: nat): Columns
    requires s < 5 && n < 32
  {
    seq(5, (x: nat) requires x < 5 => Xor(Xor(c[x], c[Minus(x, s, 5)]), Rotl(c[Plus(x, s, 5)], n)))
  }

  lemma BitSpread(c: Columns, s: nat, n: nat, x: nat, i: nat)
    requires s < 5 && n < 32 && x < 5 && i < 32
    ensures Bit(Spread(c, s, n)[x], i) ==
            ((Bit(c[x], i) != Bit(c[Minus(x, s, 5)], i)) != Bit(c[Plus(x, s, 5)], Minus(i, n, 32)))
  {
    SpreadAt(c, s, n, x);
    TurnedPlace(i, n);
    hide Xor, Rotl, Bit, Spread, Minus, Plus;
    var u, v, w := c[x], c[Minus(x, s, 5)], c[Plus(x, s, 5)];
    BitXor(Xor(u, v), Rotl(w, n), i);
    BitXor(u, v, i);
    BitRotl(w, n, i);
  }

  lemma TurnedPlace(i: nat, n: nat)
    requires i < 32 && n < 32
    ensures Minus(i, n, 32) == (i + 32 - n % 32) % 32
  {
  }

  lemma SpreadAt(c: Columns, s: nat, n: nat, x: nat)
    requires s < 5 && n < 32 && x < 5
    ensures Spread(c, s, n)[x] == Xor(Xor(c[x], c[Minus(x, s, 5)]), Rotl(c[Plus(x, s, 5)], n))
  {
    hide Xor, Rotl;
  }

  lemma SameColumns(c: Columns, d: Columns)
    requires forall x, i :: 0 <= x < 5 && 0 <= i < 32 ==> Bit(c[x], i) == Bit(d[x], i)
    ensures c == d
  {
    forall x | 0 <= x < 5
      ensures c[x] == d[x]
    {
      SameWord(c[x], d[x]);
    }
  }

  /** In characteristic two, squaring doubles both exponents. */
  lemma SpreadTwice(c: Columns, s: nat, n: nat)
    requires s < 5 && n < 32
    ensures Spread(Spread(c, s, n), s, n) == Spread(c, Plus(s, s, 5), Plus(n, n, 32))
  {
    hide Spread, Bit;
    var d, e := Spread(c, s, n), Spread(c, Plus(s, s, 5), Plus(n, n, 32));
    forall x, i | 0 <= x < 5 && 0 <= i < 32
      ensures Bit(Spread(d, s, n)[x], i) == Bit(e[x], i)
    {
      BitSpread(d, s, n, x, i);
      BitSpread(c, s, n, x, i);
      BitSpread(c, s, n, Minus(x, s, 5), i);
      BitSpread(c, s, n, Plus(x, s, 5), Minus(i, n, 32));
      BitSpread(c, Plus(s, s, 5), Plus(n, n, 32), x, i);
    }
    SameColumns(Spread(d, s, n), e);
  }

  lemma TurnsCommute(x: nat, i: nat, s: nat, n: nat)
    requires s < 5 && n < 32 && x < 5 && i < 32
    ensures Minus(Minus(x, s, 5), 1, 5) == Minus(Minus(x, 1, 5), s, 5)
    ensures Plus(Minus(x, s, 5), 1, 5) == Minus(Plus(x, 1, 5), s, 5)
    ensures Minus(Plus(x, s, 5), 1, 5) == Plus(Minus(x, 1, 5), s, 5)
    ensures Plus(Plus(x, s, 5), 1, 5) == Plus(Plus(x, 1, 5), s, 5)
    ensures Minus(Minus(i, n, 32), 1, 32) == Minus(Minus(i, 1, 32), n, 32)
  {
  }

  lemma SpreadCommutes(c: Columns, s: nat, n: nat)
    requires s < 5 && n < 32
    ensures Spread(Spread(c, s, n), 1, 1) == Spread(Spread(c, 1, 1), s, n)
  {
    hide Spread, Bit;
    var d, e := Spread(c, s, n), Spread(c, 1, 1);
    forall x, i | 0 <= x < 5 && 0 <= i < 32
      ensures Bit(Spread(d, 1, 1)[x], i) == Bit(Spread(e, s, n)[x], i)
    {
      TurnsCommute(x, i, s, n);
      BitSpread(d, 1, 1, x, i);
      BitSpread(c, s, n, x, i);
      BitSpread(c, s, n, Minus(x, 1, 5), i);
      BitSpread(c, s, n, Plus(x, 1, 5), Minus(i, 1, 32));
      BitSpread(e, s, n, x, i);
      BitSpread(c, 1, 1, x, i);
      BitSpread(c, 1, 1, Minus(x, s, 5), i);
      BitSpread(c, 1, 1, Plus(x, s, 5), Minus(i, n, 32));
      hide Plus, Minus;
    }
    SameColumns(Spread(d, 1, 1), Spread(e, s, n));
  }

  /** `(1 + X^2 + X^-2)(1 + X + X^-1) = 1` on five columns. */
  lemma SpreadInverse(c: Columns)
    ensures Spread(Spread(c, 2, 0), 1, 0) == c
  {
    hide Spread, Bit;
    var d := Spread(c, 2, 0);
    forall x, i | 0 <= x < 5 && 0 <= i < 32
      ensures Bit(Spread(d, 1, 0)[x], i) == Bit(c[x], i)
    {
      BitSpread(d, 1, 0, x, i);
      BitSpread(c, 2, 0, x, i);
      BitSpread(c, 2, 0, Minus(x, 1, 5), i);
      BitSpread(c, 2, 0, Plus(x, 1, 5), i);
    }
    SameColumns(Spread(d, 1, 0), c);
  }

  /** The inverse of `Spread(., 1, 1)`: its 31st power makes the 32nd, which turns no bits. */
  function Unspread(c: Columns): Columns {
    Spread(Spread(Spread(Spread(Spread(Spread(c, 1, 1), 2, 2), 4, 4), 3, 8), 1, 16), 1, 0)
  }

  lemma UnspreadSpread(c: Columns)
    ensures Unspread(Spread(c, 1, 1)) == c
  {
    hide Spread;
    SpreadTwice(c, 1, 1);
    SpreadTwice(c, 2, 2);
    SpreadTwice(c, 4, 4);
    SpreadTwice(c, 3, 8);
    SpreadTwice(c, 1, 16);
    SpreadInverse(c);
  }

  lemma SpreadUnspread(c: Columns)
    ensures Spread(Unspread(c), 1, 1) == c
  {
    hide Spread;
    var c1 := Spread(c, 1, 1);
    var c2 := Spread(c1, 2, 2);
    var c3 := Spread(c2, 4, 4);
    var c4 := Spread(c3, 3, 8);
    var c5 := Spread(c4, 1, 16);
    SpreadCommutes(c5, 1, 0);
    SpreadCommutes(c4, 1, 16);
    SpreadCommutes(c3, 3, 8);
    SpreadCommutes(c2, 4, 4);
    SpreadCommutes(c1, 2, 2);
    UnspreadSpread(c);
  }

  // ---- theta ----

  function Parity(a: State): Columns { seq(5, (x: nat) requires x < 5 => C(a, x)) }

  /** Theta's column term, from the parities alone. */
  function Term(c: Columns, x: nat): Word
    requires x < 5
  {
    Xor(c[Minus(x, 1, 5)], Rotl(c[Plus(x, 1, 5)], 1))
  }

  function AddTerms(a: State, c: Columns): State {
    seq(25, (i: nat) requires i < 25 => Xor(a[i], Term(c, i % 5)))
  }

  lemma DIsTerm(a: State, x: nat)
    requires x < 5
    ensures D(a, x) == Term(Parity(a), x)
  {
    hide Xor, Rotl;
    ThetaParts(a, x);
    assert (x + 4) % 5 == Minus(x, 1, 5) && (x + 1) % 5 == Plus(x, 1, 5);
    hide C;
  }

  lemma ThetaAddsTerms(a: State)
    ensures Theta(a) == AddTerms(a, Parity(a))
  {
    hide Xor, D, Term, Theta, Parity;
    ThetaLanes(a);
    forall i | 0 <= i < 25
      ensures Theta(a)[i] == AddTerms(a, Parity(a))[i]
    {
      DIsTerm(a, i % 5);
    }
  }

  lemma BitParity(a: State, x: nat, i: nat)
    requires x < 5 && i < 32
    ensures Bit(Parity(a)[x], i) ==
            ((((Bit(a[x], i) != Bit(a[x + 5], i)) != Bit(a[x + 10], i)) != Bit(a[x + 15], i)) != Bit(a[x + 20], i))
  {
    hide Xor, Bit;
    BitXor(a[x], a[x + 5], i);
    BitXor(Xor(a[x], a[x + 5]), a[x + 10], i);
    BitXor(Xor(Xor(a[x], a[x + 5]), a[x + 10]), a[x + 15], i);
    BitXor(Xor(Xor(Xor(a[x], a[x + 5]), a[x + 10]), a[x + 15]), a[x + 20], i);
  }

  /** Five equal terms in a column change its parity by one of them. */
  lemma ParityOfAddTerms(a: State, c: Columns, x: nat, i: nat)
    requires x < 5 && i < 32
    ensures Bit(Parity(AddTerms(a, c))[x], i) == (Bit(Parity(a)[x], i) != Bit(Term(c, x), i))
  {
    hide Parity, Xor, Bit, Term;
    BitParity(AddTerms(a, c), x, i);
    BitParity(a, x, i);
    BitXor(a[x], Term(c, x), i);
    BitXor(a[x + 5], Term(c, x), i);
    BitXor(a[x + 10], Term(c, x), i);
    BitXor(a[x + 15], Term(c, x), i);
    BitXor(a[x + 20], Term(c, x), i);
  }

  lemma BitSpread1(c: Columns, x: nat, i: nat)
    requires x < 5 && i < 32
    ensures Bit(Spread(c, 1, 1)[x], i) == (Bit(c[x], i) != Bit(Term(c, x), i))
  {
    hide Xor, Rotl, Bit, Spread;
    BitSpread(c, 1, 1, x, i);
    BitXor(c[Minus(x, 1, 5)], Rotl(c[Plus(x, 1, 5)], 1), i);
    BitRotl(c[Plus(x, 1, 5)], 1, i);
  }

  lemma ParityOfTheta(a: State)
    ensures Parity(Theta(a)) == Spread(Parity(a), 1, 1)
  {
    hide Parity, Bit, Spread, Theta, AddTerms;
    ThetaAddsTerms(a);
    forall x, i | 0 <= x < 5 && 0 <= i < 32
      ensures Bit(Parity(Theta(a))[x], i) == Bit(Spread(Parity(a), 1, 1)[x], i)
    {
      ParityOfAddTerms(a, Parity(a), x, i);
      BitSpread1(Parity(a), x, i);
    }
    SameColumns(Parity(Theta(a)), Spread(Parity(a), 1, 1));
  }

  function ThetaInverse(b: State): State { AddTerms(b, Unspread(Parity(b))) }

  lemma AddTermsTwice(a: State, c: Columns)
    ensures AddTerms(AddTerms(a, c), c) == a
  {
    hide Xor, Term;
    forall i | 0 <= i < 25
      ensures AddTerms(AddTerms(a, c), c)[i] == a[i]
    {
      XorXor(a[i], Term(c, i % 5));
    }
  }

  lemma ThetaInvertible(a: State)
    ensures ThetaInverse(Theta(a)) == a
    ensures Theta(ThetaInverse(a)) == a
  {
    hide Theta, Parity, Spread, Unspread, AddTerms, Bit;
    ThetaAddsTerms(a);
    ParityOfTheta(a);
    UnspreadSpread(Parity(a));
    AddTermsTwice(a, Parity(a));

    var c, b := Unspread(Parity(a)), ThetaInverse(a);
    ThetaAddsTerms(b);
    SpreadUnspread(Parity(a));
    forall x, i | 0 <= x < 5 && 0 <= i < 32
      ensures Bit(Parity(b)[x], i) == Bit(c[x], i)
    {
      ParityOfAddTerms(a, c, x, i);
      BitSpread1(c, x, i);
    }
    SameColumns(Parity(b), c);
    AddTermsTwice(a, c);
  }

  // ---- rho and pi ----

  function RhoPiInverse(b: State): State {
    PilnDistinct();
    seq(25, (i: nat) requires i < 25 => if i == 0 then b[0] else UnturnedLane(b, i))
  }

  function UnturnedLane(b: State, i: nat): Word
    requires 0 < i < 25
  {
    LaneTable(i);
    PilnDistinct();
    Rotr(b[Piln(StepOf(i))], Rotc(StepOf(i)))
  }

  lemma RhoPiInvertible(a: State)
    ensures RhoPiInverse(Pi(Rho(a))) == a
    ensures Pi(Rho(RhoPiInverse(a))) == a
  {
    hide Rho, Pi, Rotl, Rotr, Rotc, Piln, StepOf;
    PilnDistinct();
    var b := RhoPiInverse(a);
    RhoPiOrigin(a);
    RhoPiOrigin(b);
    forall i | 0 < i < 25
      ensures RhoPiInverse(Pi(Rho(a)))[i] == a[i]
      ensures Pi(Rho(b))[i] == a[i]
    {
      LaneTable(i);
      var t := StepOf(i);
      RhoPiLane(a, t);
      RotateBack(a[i], Rotc(t));
      var u := if t == 0 then 23 else t - 1;
      RhoPiLane(b, u);
      assert Piln(u) == i && StepOf(Source(u)) == u;
      RotateBack(a[i], Rotc(u));
    }
  }

  // ---- chi ----

  function ChiInverse(b: State): State { seq(25, (i: nat) requires i < 25 => UnchiLane(b, i % 5, i - i % 5)) }

  function UnchiLane(b: State, x: nat, row: nat): Word
    requires x < 5 && row <= 20
  {
    Xor(b[row + x],
        And(Not(b[row + Plus(x, 1, 5)]),
            Xor(b[row + Plus(x, 2, 5)], And(Not(b[row + Plus(x, 3, 5)]), b[row + Plus(x, 4, 5)]))))
  }

  /** Digit `i` of the word at place `x` of row `y`. */
  predicate Digit(a: State, x: nat, y: nat, i: nat)
    requires x < 5 && y < 5
  {
    Bit(a[5 * y + x], i)
  }

  lemma BitChi(a: State, x: nat, y: nat, i: nat)
    requires x < 5 && y < 5 && i < 32
    ensures Digit(Chi(a), x, y, i) ==
            (Digit(a, x, y, i) != (!Digit(a, Plus(x, 1, 5), y, i) && Digit(a, Plus(x, 2, 5), y, i)))
  {
    hide Bit, Xor, And, Not, Chi;
    ChiAt(a, x, y);
    var p, q := a[5 * y + Plus(x, 1, 5)], a[5 * y + Plus(x, 2, 5)];
    BitXor(a[5 * y + x], And(Not(p), q), i);
    BitAnd(Not(p), q, i);
    BitNot(p, i);
  }

  lemma UnchiAt(b: State, x: nat, y: nat)
    requires x < 5 && y < 5
    ensures ChiInverse(b)[5 * y + x] == UnchiLane(b, x, 5 * y)
  {
    assert (5 * y + x) % 5 == x;
    hide UnchiLane;
  }

  lemma BitUnchi(b: State, x: nat, y: nat, i: nat)
    requires x < 5 && y < 5 && i < 32
    ensures Digit(ChiInverse(b), x, y, i) ==
            (Digit(b, x, y, i) != (!Digit(b, Plus(x, 1, 5), y, i) &&
            (Digit(b, Plus(x, 2, 5), y, i) != (!Digit(b, Plus(x, 3, 5), y, i) && Digit(b, Plus(x, 4, 5), y, i)))))
  {
    UnchiAt(b, x, y);
    RowTurns(x);
    hide Bit, Xor, And, Not, ChiInverse, Plus;
    var p, q := b[5 * y + Plus(x, 1, 5)], b[5 * y + Plus(x, 2, 5)];
    var r, s := b[5 * y + Plus(x, 3, 5)], b[5 * y + Plus(x, 4, 5)];
    var u := And(Not(r), s);
    var v := Xor(q, u);
    BitXor(b[5 * y + x], And(Not(p), v), i);
    BitAnd(Not(p), v, i);
    BitNot(p, i);
    BitXor(q, u, i);
    BitAnd(Not(r), s, i);
    BitNot(r, i);
  }

  /** The five places of a row, seen from place `x`. */
  lemma RowTurns(x: nat)
    requires x < 5
    ensures var x1, x2, x3, x4 := Plus(x, 1, 5), Plus(x, 2, 5), Plus(x, 3, 5), Plus(x, 4, 5);
            && x1 < 5 && x2 < 5 && x3 < 5 && x4 < 5
            && Plus(x1, 1, 5) == x2 && Plus(x1, 2, 5) == x3 && Plus(x2, 1, 5) == x3 && Plus(x2, 2, 5) == x4
            && Plus(x3, 1, 5) == x4 && Plus(x3, 2, 5) == x && Plus(x4, 1, 5) == x && Plus(x4, 2, 5) == x1
            && Plus(x1, 3, 5) == x4 && Plus(x1, 4, 5) == x && Plus(x2, 3, 5) == x && Plus(x2, 4, 5) == x1
  {
  }

  lemma UnchiOfChi(a: State, x: nat, y: nat, i: nat)
    requires x < 5 && y < 5 && i < 32
    ensures Digit(ChiInverse(Chi(a)), x, y, i) == Digit(a, x, y, i)
  {
    RowTurns(x);
    hide Digit, Chi, ChiInverse, Plus;
    BitUnchi(Chi(a), x, y, i);
    BitChi(a, x, y, i);
    BitChi(a, Plus(x, 1, 5), y, i);
    BitChi(a, Plus(x, 2, 5), y, i);
    BitChi(a, Plus(x, 3, 5), y, i);
    BitChi(a, Plus(x, 4, 5), y, i);
  }

  lemma ChiOfUnchi(a: State, x: nat, y: nat, i: nat)
    requires x < 5 && y < 5 && i < 32
    ensures Digit(Chi(ChiInverse(a)), x, y, i) == Digit(a, x, y, i)
  {
    RowTurns(x);
    hide Digit, Chi, ChiInverse, Plus;
    BitChi(ChiInverse(a), x, y, i);
    BitUnchi(a, x, y, i);
    BitUnchi(a, Plus(x, 1, 5), y, i);
    BitUnchi(a, Plus(x, 2, 5), y, i);
  }

  lemma ChiRowInvertible(a: State, x: nat, y: nat)
    requires x < 5 && y < 5
    ensures ChiInverse(Chi(a))[5 * y + x] == a[5 * y + x]
    ensures Chi(ChiInverse(a))[5 * y + x] == a[5 * y + x]
  {
    hide Bit, Chi, ChiInverse;
    var b, c, j := Chi(a), ChiInverse(a), 5 * y + x;
    forall i | 0 <= i < 32
      ensures Bit(ChiInverse(b)[j], i) == Bit(a[j], i)
      ensures Bit(Chi(c)[j], i) == Bit(a[j], i)
    {
      UnchiOfChi(a, x, y, i);
      ChiOfUnchi(a, x, y, i);
      assert Digit(a, x, y, i) == Bit(a[j], i);
    }
    SameWord(ChiInverse(b)[j], a[j]);
    SameWord(Chi(c)[j], a[j]);
  }

  lemma ChiInvertible(a: State)
    ensures ChiInverse(Chi(a)) == a
    ensures Chi(ChiInverse(a)) == a
  {
    hide Chi, ChiInverse;
    forall i | 0 <= i < 25
      ensures ChiInverse(Chi(a))[i] == a[i] && Chi(ChiInverse(a))[i] == a[i]
    {
      ChiRowInvertible(a, i % 5, i / 5);
    }
  }

  // ---- the permutation ----

  function RoundInverse(b: State, round: nat): State {
    ThetaInverse(RhoPiInverse(ChiInverse(Iota(b, round))))
  }

  lemma IotaTwice(a: State, round: nat)
    ensures Iota(Iota(a, round), round) == a
  {
    hide Xor, RoundConstant;
    XorXor(a[0], RoundConstant(round));
  }

  lemma RoundInvertible(a: State, round: nat)
    ensures RoundInverse(Round(a, round), round) == a
    ensures Round(RoundInverse(a, round), round) == a
  {
    hide Theta, Rho, Pi, Chi, Iota, ThetaInverse, RhoPiInverse, ChiInverse;
    ThetaInvertible(a);
    RhoPiInvertible(Theta(a));
    ChiInvertible(Pi(Rho(Theta(a))));
    IotaTwice(Chi(Pi(Rho(Theta(a)))), round);
    IotaTwice(a, round);
    var d := Iota(a, round);
    ChiInvertible(d);
    RhoPiInvertible(ChiInverse(d));
    ThetaInvertible(RhoPiInverse(ChiInverse(d)));
  }

  function RoundsInverse(b: State, n: nat): State
    decreases n
  {
    hide RoundInverse;
    if n == 0 then b else RoundsInverse(RoundInverse(b, n - 1), n - 1)
  }

  lemma {:induction false} RoundsInvertible(a: State, n: nat)
    ensures RoundsInverse(Rounds(a, n), n) == a
    ensures Rounds(RoundsInverse(a, n), n) == a
    decreases n
  {
    hide Round, RoundInverse;
    if n > 0 {
      RoundInvertible(Rounds(a, n - 1), n - 1);
      RoundsInvertible(a, n - 1);
      RoundsInvertible(RoundInverse(a, n - 1), n - 1);
      RoundInvertible(a, n - 1);
    }
  }

  /** keccak-f800 is a permutation: `RoundsInverse` of 22 rounds undoes it on both sides. */
  lemma KeccakF800IsPermutation(a: State, b: State)
    ensures KeccakF800(a) == KeccakF800(b) ==> a == b
    ensures KeccakF800(RoundsInverse(a, 22)) == a
  {
    hide Rounds, RoundsInverse;
    RoundsInvertible(a, 22);
    RoundsInvertible(b, 22);
  }
}
