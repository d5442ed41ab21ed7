/** The in-place keccak-f800 of the source, proved against FIPS 202. */
module KeccakInPlace {
  import opened Words
  import opened Keccak

  // ---- the method ----

  /** Theta, rho with pi, chi and iota, each rewriting the 25 words in place. */
  method KeccakF800Round(st: array<Word>, r: nat)
    requires st.Length == 25 && r < 22
    modifies st
    ensures st[..] == Round(old(st[..]), r)
  {
    hide Theta, Rho, Pi, Chi, Xor, RoundConstant, Rndc;
    ThetaInPlace(st);
    RhoPiInPlace(st);
    ChiInPlace(st);
    RndcFromLfsr(r);
    st[0] := Xor(st[0], Rndc(r));
  }

  method ThetaInPlace(st: array<Word>)
    requires st.Length == 25
    modifies st
    ensures st[..] == Theta(old(st[..]))
  {
    hide Xor, Rotl, C, D, Theta;
    ghost var a: State := st[..];
    var bc := new Word[5];
    for i := 0 to 5
      invariant st[..] == a
      invariant forall k :: 0 <= k < i ==> bc[k] == C(a, k)
    {
      ThetaParts(a, i);
      bc[i] := Xor(Xor(Xor(Xor(st[i], st[i + 5]), st[i + 10]), st[i + 15]), st[i + 20]);
    }
    for i := 0 to 5
      invariant forall k :: 0 <= k < 5 ==> bc[k] == C(a, k)
      invariant forall k :: 0 <= k < 25 ==> st[k] == if k % 5 < i then Xor(a[k], D(a, k % 5)) else a[k]
    {
      ThetaParts(a, i);
      var t := Xor(bc[(i + 4) % 5], Rotl(bc[(i + 1) % 5], 1));
      var j := 0;
      while j < 25
        invariant 0 <= j <= 25 && j % 5 == 0
        invariant forall k :: 0 <= k < 5 ==> bc[k] == C(a, k)
        invariant forall k :: 0 <= k < 25 ==>
          st[k] == if k % 5 < i || (k % 5 == i && k < j) then Xor(a[k], D(a, k % 5)) else a[k]
      {
        OneInFive(i, j);
        st[j + i] := Xor(st[j + i], t);
        j := j + 5;
      }
    }
    ThetaLanes(a);
  }

  lemma OneInFive(i: nat, j: nat)
    requires i < 5 && j % 5 == 0
    ensures (j + i) % 5 == i
    ensures forall k :: j <= k < j + 5 && k % 5 == i ==> k == j + i
  {
  }

  method RhoPiInPlace(st: array<Word>)
    requires st.Length == 25
    modifies st
    ensures st[..] == Pi(Rho(old(st[..])))
  {
    hide Pi, Rho, Rotl, Rotc, Piln, StepOf;
    ghost var a: State := st[..];
    ghost var b := Pi(Rho(a));
    PilnDistinct();
    var t := st[1];
    for i := 0 to 24
      invariant t == a[Source(i)]
      invariant forall k :: 0 <= k < i ==> st[Piln(k)] == b[Piln(k)]
      invariant forall k :: i <= k < 24 ==> st[Piln(k)] == a[Piln(k)]
      invariant st[0] == a[0]
    {
      RhoPiLane(a, i);
      var j := Piln(i);
      var tmp := st[j];
      st[j] := Rotl(t, Rotc(i));
      t := tmp;
    }
    RhoPiOrigin(a);
    forall j | 0 <= j < 25
      ensures st[j] == b[j]
    {
      if j > 0 {
        LaneTable(j);
      }
    }
  }

  method ChiInPlace(st: array<Word>)
    requires st.Length == 25
    modifies st
    ensures st[..] == Chi(old(st[..]))
  {
    hide Xor, And, Not, Chi;
    ghost var a: State := st[..];
    var bc := new Word[5];
    var j := 0;
    while j < 25
      invariant 0 <= j <= 25 && j % 5 == 0
      invariant forall k :: 0 <= k < 25 ==> st[k] == if k < j then Chi(a)[k] else a[k]
    {
      for i := 0 to 5
        invariant forall k :: 0 <= k < 25 ==> st[k] == if k < j then Chi(a)[k] else a[k]
        invariant forall k :: 0 <= k < i ==> bc[k] == a[j + k]
      {
        bc[i] := st[j + i];
      }
      for i := 0 to 5
        invariant forall k :: 0 <= k < 5 ==> bc[k] == a[j + k]
        invariant forall k :: 0 <= k < 25 ==> st[k] == if k < j + i then Chi(a)[k] else a[k]
      {
        ChiAt(a, i, j / 5);
        st[j + i] := Xor(st[j + i], And(Not(bc[(i + 1) % 5]), bc[(i + 2) % 5]));
      }
      j := j + 5;
    }
  }

  method KeccakF800InPlace(st: array<Word>)
    requires st.Length == 25
    modifies st
    ensures st[..] == KeccakF800(old(st[..]))
  {
    hide Round;
    for r := 0 to 22
      invariant st[..] == Rounds(old(st[..]), r)
    {
      KeccakF800Round(st, r);
    }
  }
}
