/** Copying into arrays. */
module Arrays {
  import opened Words

  /** `copy_from_slice`, or a copy loop: `words` from place `at` on. */
  method CopyInto(dst: array<Word>, at: nat, words: seq<Word>)
    requires at + |words| <= dst.Length
    modifies dst
    ensures dst[..] == old(dst[..at]) + words + old(dst[at + |words|..])
  {
    for i := 0 to |words|
      invariant forall k :: 0 <= k < dst.Length ==> dst[k] == if at <= k < at + i then words[k - at] else old(dst[k])
    {
      dst[at + i] := words[i];
    }
  }
}
