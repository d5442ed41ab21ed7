/** Where the hash reads the DAG: always inside it, sixteen neighbouring rows at a time. */
module DagAccess {
  import opened Arith
  import opened Bits
  import opened Words
  import opened Interpreter
  import opened LightCaches

  // ---- the low digits of an exclusive or ----

  lemma {:induction false} BitwiseLow(op: BitOp, a: nat, b: nat, k: nat, n: nat)
    requires n <= k
    ensures Bitwise(op, a, b, k) % Pow2(n) == Bitwise(op, a % Pow2(n), b % Pow2(n), n)
  {
    if n > 0 {
      BitwiseLow(op, a / 2, b / 2, k - 1, n - 1);
      ModHalf(Bitwise(op, a, b, k), Pow2(n - 1));
      ModHalf(a, Pow2(n - 1));
      ModHalf(b, Pow2(n - 1));
      var x := Bitwise(op, a, b, k);
      var r := x % Pow2(n);
      HalfOf(x, Bitwise(op, a / 2, b / 2, k - 1), if op.On(a % 2 == 1, b % 2 == 1) then 1 else 0);
      assert r == 2 * (r / 2) + r % 2;
    }
  }

  /** The sixteen lanes of an iteration, as a four-digit exclusive or. */
  function Turn(lane: nat, loop: nat): (r: nat)
    ensures r < 16
  {
    Pow2Table();
    Bitwise(XorOp, lane % 16, loop % 16, 4)
  }

  lemma LaneOffset(lane: nat, loop: nat)
    requires lane < 16 && loop < 0x1_0000_0000
    ensures Xor(lane, loop) % 16 == Turn(lane, loop)
  {
    Pow2Table();
    BitwiseLow(XorOp, lane, loop, 32, 4);
  }

  lemma TurnTwice(a: nat, loop: nat)
    requires a < 16
    ensures Turn(Turn(a, loop), loop) == a
  {
    hide Bit, Bitwise;
    Pow2Table();
    var t := Turn(a, loop);
    forall i | 0 <= i < 4
      ensures Bit(Turn(t, loop), i) == Bit(a, i)
    {
      BitOfBitwise(XorOp, t, loop % 16, 4, i);
      BitOfBitwise(XorOp, a, loop % 16, 4, i);
    }
    SameBits(Turn(t, loop), a, 4);
  }

  // ---- rows ----

  ghost predicate IsRead(mix0: Word, loop: nat, de: Positive, row: nat)
    requires loop < 0x1_0000_0000
  {
    exists lane :: 0 <= lane < 16 && RowIndex(mix0, lane, loop, de) == row
  }

  /** Every row any lane reads in any iteration lies among the first `16 * dagElements` rows. While
      those fit 32 bits the truncation changes nothing, and the sixteen lanes of an iteration read
      the sixteen rows of one aligned block, each exactly once. */
  lemma RowsOfOneLoop(mix0: Word, loop: nat, de: Positive)
    requires loop < 0x1_0000_0000 && 16 * de <= 0x1_0000_0000
    ensures forall lane :: 0 <= lane < 16 ==>
      RowIndex(mix0, lane, loop, de) == 16 * (mix0 % de) + Turn(lane, loop) < 16 * de
    ensures forall row :: 16 * (mix0 % de) <= row < 16 * (mix0 % de) + 16 ==> IsRead(mix0, loop, de, row)
    ensures forall l, m :: 0 <= l < m < 16 ==> RowIndex(mix0, l, loop, de) != RowIndex(mix0, m, loop, de)
  {
    hide Xor, Turn;
    var base := mix0 % de;
    forall lane | 0 <= lane < 16
      ensures RowIndex(mix0, lane, loop, de) == 16 * base + Turn(lane, loop) < 16 * de
    {
      LaneOffset(lane, loop);
    }
    forall row | 16 * base <= row < 16 * base + 16
      ensures IsRead(mix0, loop, de, row)
    {
      var lane := Turn(row - 16 * base, loop);
      TurnTwice(row - 16 * base, loop);
      assert RowIndex(mix0, lane, loop, de) == row;
    }
    forall l, m | 0 <= l < m < 16
      ensures RowIndex(mix0, l, loop, de) != RowIndex(mix0, m, loop, de)
    {
      TurnTwice(l, loop);
      TurnTwice(m, loop);
    }
  }

  // ---- sizes ----

  /** The dataset holds `2 * dagElements + 1` chunks of 128 bytes, so every row that is read exists. */
  lemma DatasetShape(light: LightCache)
    requires light.Valid()
    ensures light.fullSize == 128 * (2 * light.dagElements + 1)
    ensures light.dagItems == 4 * light.dagElements + 2
    ensures 4 * light.dagItems == 16 * light.dagElements + 8
    ensures light.dagElements > 0
  {
  }

  /** Up to epoch 8064 every row index, and up to epoch 1920 every word index, fits 32 bits. */
  lemma IndicesFit(light: LightCache)
    requires light.Valid()
    ensures light.epoch <= 8064 ==> 4 * light.dagItems <= 0x1_0000_0000
    ensures light.epoch <= 1920 ==> 16 * light.dagItems <= 0x1_0000_0000
  {
    DatasetShape(light);
  }
}
