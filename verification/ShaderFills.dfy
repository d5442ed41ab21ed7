/** The state arrays that the search shader fills before each of its two permutations, with the
    variant's injected statements. */
module ShaderFills {
  import opened Words
  import opened Arrays
  import opened Hash
  import opened Shader

  /** The first state: header, nonce, a zero tail, then the variant's tail over it. */
  method FirstState(k: Launch, gid: Word) returns (st: array<Word>)
    ensures fresh(st)
    ensures st[..] == SeedState(k.header, NonceLo(k, gid), NonceHi(k, gid), k.variant)
  {
    hide NonceLo, NonceHi;
    st := new Word[25];
    CopyInto(st, 0, k.header);
    st[8] := NonceLo(k, gid);
    st[9] := NonceHi(k, gid);
    CopyInto(st, 10, Zero(15));
    if k.variant.Kawpow? {
      CopyInto(st, 10, RAVENCOIN);
    }
  }

  /** The last state: zeros, then the variant's fill over them. */
  method LastState(k: Launch, s: Shader.Lane) returns (st: array<Word>)
    ensures fresh(st) && st[..] == FinalFill(k, s)
  {
    hide GlslBswap;
    st := new Word[25];
    CopyInto(st, 0, Zero(25));
    if k.variant.Kawpow? {
      CopyInto(st, 0, s.state2);
      CopyInto(st, 8, s.digest);
      assert st[..16] == s.state2 + s.digest;
      CopyInto(st, 16, RAVENCOIN[..9]);
    } else {
      CopyInto(st, 0, k.header);
      st[8] := GlslBswap(s.state2[1]);
      st[9] := GlslBswap(s.state2[0]);
      CopyInto(st, 10, s.digest);
    }
  }
}
