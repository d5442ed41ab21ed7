/** The cache's files: their names and the header that opens each of them. */
module CacheFiles {
  import opened Words
  import Bits
  import opened Options
  import opened Glsl
  import opened Ethash
  import opened LightCaches
  import opened Hash

  datatype Kind = LightFile | DagFile

  /** What a file is filed under; its seed is in its header. */
  datatype Key = Key(kind: Kind, variant: Variant, epoch: Word, parents: Word)

  // ---- names ----

  function Prefix(kind: Kind): string { if kind.LightFile? then "light" else "dag" }
  function VariantName(variant: Variant): string { if variant.Kawpow? then "kawpow" else "vanilla" }

  /** What the names of one kind and variant begin with. */
  function Needle(kind: Kind, variant: Variant): string { Prefix(kind) + "-" + VariantName(variant) + "-e" }

  function Name(k: Key): string { Needle(k.kind, k.variant) + (Dec(k.epoch) + ("-p" + (Dec(k.parents) + ".bin"))) }
  function TmpName(k: Key): string { Name(k) + ".tmp" }

  predicate StartsWith(s: string, t: string) { |t| <= |s| && s[..|t|] == t }
  predicate EndsWith(s: string, t: string) { |t| <= |s| && s[|s| - |t|..] == t }

  /** The files a pruning looks at. */
  predicate Listed(name: string, kind: Kind, variant: Variant) {
    StartsWith(name, Needle(kind, variant)) && EndsWith(name, ".bin")
  }

  /** Equal strings split alike at the first character that is no digit. */
  lemma SplitDigits(a: string, x: string, b: string, y: string)
    requires a + x == b + y && |x| > 0 && |y| > 0 && !IsDigit(x[0]) && !IsDigit(y[0])
    requires forall i :: 0 <= i < |a| ==> IsDigit(a[i])
    requires forall i :: 0 <= i < |b| ==> IsDigit(b[i])
    ensures a == b && x == y
  {
    var s := a + x;
    assert s[|a|] == x[0];
    assert s[|b|] == y[0] by { assert (b + y)[|b|] == y[0]; }
    assert forall i :: 0 <= i < |a| ==> s[i] == a[i];
    assert forall i :: 0 <= i < |b| ==> s[i] == b[i] by { assert s == b + y; }
    assert |a| == |b|;
    assert (a + x)[..|a|] == a && (b + y)[..|a|] == b;
    assert (a + x)[|a|..] == x && (b + y)[|a|..] == y;
  }

  lemma DecInjective(m: nat, n: nat)
    requires Dec(m) == Dec(n)
    ensures m == n
  {
    DecRoundTrip(m);
    DecRoundTrip(n);
  }

  /** The four beginnings exclude one another. */
  lemma NeedleInjective(kind: Kind, variant: Variant, kind': Kind, variant': Variant, rest: string)
    requires StartsWith(Needle(kind, variant) + rest, Needle(kind', variant'))
    ensures kind == kind' && variant == variant'
  {
    var s, n := Needle(kind, variant) + rest, Needle(kind', variant');
    assert s[0] == n[0];
    if kind == kind' {
      var p := |Prefix(kind)|;
      assert s[p + 1] == n[p + 1];
    }
  }

  /** A name tells its key. */
  lemma NameInjective(a: Key, b: Key)
    requires Name(a) == Name(b)
    ensures a == b
  {
    var (na, nb) := (Needle(a.kind, a.variant), Needle(b.kind, b.variant));
    var ra := Dec(a.epoch) + ("-p" + (Dec(a.parents) + ".bin"));
    var rb := Dec(b.epoch) + ("-p" + (Dec(b.parents) + ".bin"));
    hide Needle, Dec;
    assert Name(b)[..|nb|] == nb;
    NeedleInjective(a.kind, a.variant, b.kind, b.variant, ra);
    assert Name(a)[|na|..] == ra && Name(b)[|nb|..] == rb;
    SplitDigits(Dec(a.epoch), "-p" + (Dec(a.parents) + ".bin"), Dec(b.epoch), "-p" + (Dec(b.parents) + ".bin"));
    assert ("-p" + (Dec(a.parents) + ".bin"))[2..] == Dec(a.parents) + ".bin";
    assert ("-p" + (Dec(b.parents) + ".bin"))[2..] == Dec(b.parents) + ".bin";
    SplitDigits(Dec(a.parents), ".bin", Dec(b.parents), ".bin");
    DecInjective(a.epoch, b.epoch);
    DecInjective(a.parents, b.parents);
  }

  /** Pruning a kind and variant looks at all its files and at no other cache file. */
  lemma ListedIff(k: Key, kind: Kind, variant: Variant)
    ensures Listed(Name(k), kind, variant) <==> k.kind == kind && k.variant == variant
  {
    hide Dec;
    var n := Needle(k.kind, k.variant);
    var rest := Dec(k.epoch) + ("-p" + (Dec(k.parents) + ".bin"));
    hide Needle;
    assert Name(k) == n + rest && Name(k)[..|n|] == n;
    assert EndsWith(Name(k), ".bin");
    if StartsWith(Name(k), Needle(kind, variant)) {
      NeedleInjective(k.kind, k.variant, kind, variant, rest);
    }
  }

  /** A file being written is never pruned and never read. */
  lemma TmpIsApart(k: Key, k': Key, kind: Kind, variant: Variant)
    ensures !Listed(TmpName(k), kind, variant) && TmpName(k) != Name(k')
    ensures TmpName(k) == TmpName(k') ==> k == k'
  {
    hide Dec, Needle;
    var t := TmpName(k);
    assert t[|t| - 1] == 'p';
    assert Name(k')[|Name(k')| - 1] == 'n';
    assert t[|t| - 4..] == ".tmp";
    if TmpName(k) == TmpName(k') {
      assert TmpName(k)[..|TmpName(k)| - 4] == Name(k) && TmpName(k')[..|TmpName(k')| - 4] == Name(k');
      NameInjective(k, k');
    }
  }

  // ---- headers ----

  const VERSION: Word := 1
  const HEADER_SIZE: nat := 56

  function Magic(kind: Kind): seq<Byte> {
    if kind.LightFile? then [0x52, 0x4B, 0x4C, 0x43] else [0x52, 0x4B, 0x44, 0x47]
  }

  /** A seed cut or zero-padded to 32 bytes. */
  function Seed32(seed: seq<Byte>): Seed {
    if |seed| >= 32 then seed[..32] else seed + seq(32 - |seed|, _ => 0)
  }

  function LeBytes(w: Word): (r: seq<Byte>)
    ensures |r| == 4
  {
    [ByteOf(w, 0), ByteOf(w, 1), ByteOf(w, 2), ByteOf(w, 3)]
  }

  function WordFrom(s: seq<Byte>): Word
    requires |s| == 4
  {
    LittleEndian(s[0], s[1], s[2], s[3])
  }

  function LeBytes64(x: U64): (r: seq<Byte>)
    ensures |r| == 8
  {
    LeBytes(x % 0x1_0000_0000) + LeBytes(x / 0x1_0000_0000)
  }

  function SizeFrom(s: seq<Byte>): U64
    requires |s| == 8
  {
    WordFrom(s[..4]) + 0x1_0000_0000 * WordFrom(s[4..])
  }

  /** magic | version | epoch | parents | payload length | seed */
  function PackHeader(k: Key, payloadLen: U64, seed: seq<Byte>): (h: seq<Byte>)
    ensures |h| == HEADER_SIZE
  {
    Magic(k.kind) + LeBytes(VERSION) + LeBytes(k.epoch) + LeBytes(k.parents) + LeBytes64(payloadLen) + Seed32(seed)
  }

  /** The payload length, if the header is the one expected. */
  function CheckHeader(raw: seq<Byte>, k: Key, seed: seq<Byte>): Option<U64> {
    if |raw| != HEADER_SIZE then None
    else if raw[0..4] != Magic(k.kind) then None
    else if WordFrom(raw[4..8]) != VERSION || WordFrom(raw[8..12]) != k.epoch || WordFrom(raw[12..16]) != k.parents
            || raw[24..56] != Seed32(seed) then None
    else Some(SizeFrom(raw[16..24]))
  }

  lemma WordBytes(w: Word)
    ensures WordFrom(LeBytes(w)) == w
  {
    WordOfBytes(w);
  }

  lemma BytesWord(s: seq<Byte>)
    requires |s| == 4
    ensures LeBytes(WordFrom(s)) == s
  {
    FourBytes(s[0], s[1], s[2], s[3]);
  }

  lemma FourBytes(b0: Byte, b1: Byte, b2: Byte, b3: Byte)
    ensures var w := LittleEndian(b0, b1, b2, b3);
            ByteOf(w, 0) == b0 && ByteOf(w, 1) == b1 && ByteOf(w, 2) == b2 && ByteOf(w, 3) == b3
  {
    var w := LittleEndian(b0, b1, b2, b3);
    var q1 := b1 + 0x100 * b2 + 0x1_0000 * b3;
    assert w == 0x100 * q1 + b0;
    assert w / 0x100 == q1;
    var q2 := b2 + 0x100 * b3;
    assert q1 == 0x100 * q2 + b1;
    QuotientTwice(w, 0x100);
    QuotientTwice(w, 0x1_0000);
    assert w / 0x1_0000 == q2;
  }

  lemma SizeBytes(x: U64)
    ensures SizeFrom(LeBytes64(x)) == x
  {
    WordBytes(x % 0x1_0000_0000);
    WordBytes(x / 0x1_0000_0000);
    hide LeBytes, WordFrom;
    assert LeBytes64(x)[..4] == LeBytes(x % 0x1_0000_0000) && LeBytes64(x)[4..] == LeBytes(x / 0x1_0000_0000);
  }

  lemma BytesSize(s: seq<Byte>)
    requires |s| == 8
    ensures LeBytes64(SizeFrom(s)) == s
  {
    BytesWord(s[..4]);
    BytesWord(s[4..]);
    SizeParts(s);
    hide LeBytes, WordFrom, SizeFrom;
    assert s == s[..4] + s[4..];
  }

  lemma SizeParts(s: seq<Byte>)
    requires |s| == 8
    ensures SizeFrom(s) % 0x1_0000_0000 == WordFrom(s[..4]) && SizeFrom(s) / 0x1_0000_0000 == WordFrom(s[4..])
  {
    hide WordFrom;
    HalvesOf(WordFrom(s[..4]), WordFrom(s[4..]));
  }

  lemma HalvesOf(lo: Word, hi: Word)
    ensures var x := lo + 0x1_0000_0000 * hi; x % 0x1_0000_0000 == lo && x / 0x1_0000_0000 == hi
  {
  }

  /** Numbers are stored low byte first: byte `k` holds the digits from place `8 * k` on. */
  lemma LowByteFirst(x: U64, k: nat, i: nat)
    requires k < 8 && i < 8
    ensures Bits.Bit(LeBytes64(x)[k], i) == Bits.Bit(x, 8 * k + i)
  {
    hide LeBytes, Bits.Bit, Bits.Pow2;
    if k < 4 {
      WordDigit(x % 0x1_0000_0000, k, i);
    } else {
      WordDigit(x / 0x1_0000_0000, k - 4, i);
    }
    HalfDigits(x, 8 * k + i);
  }

  lemma WordDigit(w: Word, k: nat, i: nat)
    requires k < 4 && i < 8
    ensures Bits.Bit(LeBytes(w)[k], i) == Bits.Bit(w, 8 * k + i)
  {
    BitLittleEndian(ByteOf(w, 0), ByteOf(w, 1), ByteOf(w, 2), ByteOf(w, 3), 8 * k + i);
    WordOfBytes(w);
    hide ByteOf, LittleEndian, Bits.Bit;
  }

  lemma HalfDigits(x: U64, j: nat)
    requires j < 64
    ensures Bits.Bit(x, j) == if j < 32 then Bits.Bit(x % 0x1_0000_0000, j) else Bits.Bit(x / 0x1_0000_0000, j - 32)
  {
    assert Bits.Pow2(32) == 0x1_0000_0000 by { Bits.Pow2Table(); }
    Bits.BitOfMod(x, 32, j);
    if j >= 32 {
      Bits.BitOfShiftRight(x, 32, j - 32);
    }
    hide Bits.Bit, Bits.Pow2;
  }

  lemma FieldsOf(k: Key, payloadLen: U64, seed: seq<Byte>)
    ensures var h := PackHeader(k, payloadLen, seed);
            && h[0..4] == Magic(k.kind) && h[4..8] == LeBytes(VERSION) && h[8..12] == LeBytes(k.epoch)
            && h[12..16] == LeBytes(k.parents) && h[16..24] == LeBytes64(payloadLen) && h[24..56] == Seed32(seed)
  {
    hide Magic, LeBytes, LeBytes64, Seed32;
  }

  lemma SixParts(h: seq<Byte>)
    requires |h| == 56
    ensures h == h[0..4] + h[4..8] + h[8..12] + h[12..16] + h[16..24] + h[24..56]
  {
  }

  /** A header is accepted for a key and a seed exactly when it is the one packed for them. */
  lemma HeaderAcceptedIff(raw: seq<Byte>, k: Key, seed: seq<Byte>, payloadLen: U64)
    ensures CheckHeader(raw, k, seed) == Some(payloadLen) <==> raw == PackHeader(k, payloadLen, seed)
  {
    FieldsOf(k, payloadLen, seed);
    WordBytes(VERSION);
    WordBytes(k.epoch);
    WordBytes(k.parents);
    SizeBytes(payloadLen);
    hide Magic, LeBytes, LeBytes64, Seed32, WordFrom, SizeFrom;
    if CheckHeader(raw, k, seed) == Some(payloadLen) {
      SixParts(raw);
      BytesWord(raw[4..8]);
      BytesWord(raw[8..12]);
      BytesWord(raw[12..16]);
      BytesSize(raw[16..24]);
    }
  }

  /** Packed for one key and seed, a header is accepted for those that agree in kind, epoch, parents and
      seed, and for no others. It does not hold the variant; only the file name does. */
  lemma HeaderTells(k: Key, seed: seq<Byte>, payloadLen: U64, k': Key, seed': seq<Byte>)
    ensures CheckHeader(PackHeader(k, payloadLen, seed), k', seed')
            == if k.(variant := k'.variant) == k' && Seed32(seed) == Seed32(seed') then Some(payloadLen) else None
  {
    FieldsOf(k, payloadLen, seed);
    WordBytes(VERSION);
    WordBytes(k.epoch);
    WordBytes(k.parents);
    SizeBytes(payloadLen);
    hide LeBytes, LeBytes64, Seed32, WordFrom, SizeFrom;
  }

  // ---- the format, by example ----

  /** A DAG of epoch 3 with 512 parents. */
  lemma NameExample()
    ensures Name(Key(DagFile, Hash.Kawpow, 3, 512)) == "dag-kawpow-e3-p512.bin"
    ensures Name(Key(LightFile, Hash.Vanilla, 12, 256)) == "light-vanilla-e12-p256.bin"
  {
    DecExample();
    hide Dec;
  }

  lemma DecExample()
    ensures Dec(3) == "3" && Dec(512) == "512" && Dec(12) == "12" && Dec(256) == "256"
  {
  }

  /** The four magic bytes are the letters RKLC and RKDG. */
  lemma MagicLetters()
    ensures forall i :: 0 <= i < 4 ==> Magic(LightFile)[i] == "RKLC"[i] as nat && Magic(DagFile)[i] == "RKDG"[i] as nat
  {
  }
}
