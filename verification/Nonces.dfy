/** U64 scheduling: batches of a job stay inside the pool's extranonce region. */
module Nonces {
  import opened Arith
  import opened Bits
  import opened Words
  import opened Options

  /** The extranonce is a prefix of `bits` digits; 64 of them leave a single nonce. */
  datatype Region = Region(extranonce: U64, bits: nat) {
    predicate Valid() { bits <= 64 && extranonce < Pow2(bits) }

    /** The number of nonces with this prefix, and the first of them. */
    function Span(): nat
      requires bits <= 64
    {
      Pow2(64 - bits)
    }
    function Base(): nat
      requires bits <= 64
    {
      extranonce * Span()
    }

    predicate Contains(nonce: nat)
      requires bits <= 64
    {
      nonce < 0x1_0000_0000_0000_0000 && nonce / Span() == extranonce
    }

    /** `start_nonce`: the prefix shifted to the top, joined with the masked salt. */
    function StartNonce(salt: U64): U64
      requires bits <= 64
    {
      Pow2Table();
      if bits > 0 then
        var hi := extranonce * Pow2(64 - bits) % 0x1_0000_0000_0000_0000;
        Bitwise(OrOp, hi, Bitwise(AndOp, salt, Pow2(64 - bits) - 1, 64), 64)
      else salt
    }
  }

  lemma RegionFits(region: Region)
    requires region.Valid()
    ensures region.Span() * Pow2(region.bits) == 0x1_0000_0000_0000_0000
    ensures region.Base() + region.Span() <= 0x1_0000_0000_0000_0000
    ensures region.Span() <= 0x1_0000_0000_0000_0000
  {
    Pow2Add(64 - region.bits, region.bits);
    Pow2Table();
    var s := region.Span();
    MulMono(region.extranonce + 1, Pow2(region.bits), s);
    DistAdd(s, region.extranonce, 1);
    MulComm(s, Pow2(region.bits));
    MulMono(1, Pow2(region.bits), s);
  }

  /** Prefix and salt are added: the salt never disturbs the prefix. */
  lemma StartNonceSplits(region: Region, salt: U64)
    requires region.Valid()
    ensures region.StartNonce(salt) == region.Base() + salt % region.Span()
  {
    hide Pow2, Bitwise;
    if region.bits > 0 {
      JoinSplits(region, salt);
    } else {
      NoPrefix(region, salt);
    }
  }

  lemma JoinSplits(region: Region, salt: U64)
    requires region.Valid() && region.bits > 0
    ensures region.StartNonce(salt) == region.Base() + salt % region.Span()
  {
    StartNonceUnfold(region, salt);
    JoinFits(region, salt);
    MaskSalt(region, salt);
    hide Pow2, Bitwise, Region.StartNonce, Region.Valid, Region.Base, Region.Span;
    var lo: nat := salt % region.Span();
    JoinDisjoint(region, lo);
  }

  lemma StartNonceUnfold(region: Region, salt: U64)
    requires region.Valid() && region.bits > 0
    ensures region.StartNonce(salt) ==
            Bitwise(OrOp, region.Base() % 0x1_0000_0000_0000_0000, Bitwise(AndOp, salt, region.Span() - 1, 64), 64)
  {
    hide Pow2, Bitwise;
  }

  lemma MaskSalt(region: Region, salt: U64)
    requires region.Valid()
    ensures Bitwise(AndOp, salt, region.Span() - 1, 64) == salt % region.Span()
  {
    hide Bitwise, Pow2;
    AndMask(salt, 64 - region.bits, 64);
  }

  lemma JoinDisjoint(region: Region, lo: nat)
    requires region.Valid() && lo < region.Span() && region.Base() + lo < Pow2(64)
    ensures Bitwise(OrOp, region.Base(), lo, 64) == region.Base() + lo
  {
    hide Pow2, Bitwise;
    OrDisjoint(region.extranonce, lo, 64 - region.bits, 64);
  }

  lemma JoinFits(region: Region, salt: U64)
    requires region.Valid()
    ensures 0 <= salt % region.Span() < region.Span() && region.Base() + salt % region.Span() < Pow2(64)
    ensures region.Base() % 0x1_0000_0000_0000_0000 == region.Base()
  {
    RegionFits(region);
    assert Pow2(64) == 0x1_0000_0000_0000_0000 by { Pow2Table(); }
    SpanPositive(region);
    hide Pow2, Region.Base, Region.Span;
    DivMod(salt, region.Span());
  }

  lemma NoPrefix(region: Region, salt: U64)
    requires region.Valid() && region.bits == 0
    ensures region.Base() == 0 && salt % region.Span() == salt
  {
    assert region.Span() == 0x1_0000_0000_0000_0000 by { Pow2Table(); }
    assert region.extranonce == 0;
  }

  lemma InRegion(region: Region, nonce: nat)
    requires region.Valid() && region.Base() <= nonce < region.Base() + region.Span()
    ensures region.Contains(nonce)
  {
    RegionFits(region);
    MulComm(region.extranonce, region.Span());
    DivUnique(nonce, region.Span(), region.extranonce, nonce - region.Base());
  }

  lemma PastRegion(region: Region, nonce: nat)
    requires region.Valid() && nonce == region.Base() + region.Span()
    ensures !region.Contains(nonce)
  {
    MulComm(region.extranonce, region.Span());
    DistAdd(region.Span(), region.extranonce, 1);
    DivUnique(nonce, region.Span(), region.extranonce + 1, 0);
  }

  // ---- batch size ----

  /** Invocations of a dispatch over `n` nonces: whole workgroups. */
  function Hashed(n: nat, localSize: nat): nat
    requires localSize > 0
  {
    (n + localSize - 1) / localSize * localSize
  }

  lemma HashedMultiple(n: nat, localSize: nat)
    requires localSize > 0 && n % localSize == 0
    ensures Hashed(n, localSize) == n
  {
    var q := n / localSize;
    DivMod(n, localSize);
    DivUnique(n + localSize - 1, localSize, q, localSize - 1);
    MulComm(q, localSize);
  }

  /** The number of invocations is the least whole number of workgroups that covers `n`. */
  lemma HashedIsLeast(n: nat, localSize: nat)
    requires localSize > 0
    ensures Hashed(n, localSize) % localSize == 0 && n <= Hashed(n, localSize) < n + localSize
  {
    var m := n + localSize - 1;
    DivMod(m, localSize);
    MulComm(localSize, m / localSize);
    DivUnique(Hashed(n, localSize), localSize, m / localSize, 0);
  }

  /** `((safe / ls) * ls).max(ls) as u32`. */
  function SafeBatch(safe: U64, localSize: nat): nat
    requires localSize > 0
  {
    var b := safe / localSize * localSize;
    (if b < localSize then localSize else b) % 0x1_0000_0000
  }

  /** The calibration batches: 2^13, 2^14, ... */
  function Doublings(k: nat): seq<nat> {
    if k == 0 then [] else Doublings(k - 1) + [0x1000 * Pow2(k)]
  }

  /** The first batch is 2^13, each next one double. */
  lemma {:induction false} DoublingsAre(k: nat)
    ensures |Doublings(k)| == k && forall i :: 0 <= i < k ==> Doublings(k)[i] == Pow2(13 + i)
  {
    if k > 0 {
      DoublingsAre(k - 1);
      Pow2Add(12, k);
      assert Pow2(12) == 0x1000 by {
        Pow2Table();
        Pow2Add(8, 4);
      }
      assert Pow2(13 + (k - 1)) == 0x1000 * Pow2(k);
      hide Pow2;
    }
  }

  lemma TwelveDoublings(k: nat)
    ensures 0x2000 * Pow2(k) <= 0x100_0000 <==> k <= 11
    ensures Doublings(k + 1) == Doublings(k) + [0x2000 * Pow2(k)]
  {
    Pow2Add(4, 4);
    Pow2Add(8, 3);
    Pow2Add(8, 4);
    if k <= 11 {
      Pow2Mono(k, 11);
    } else {
      Pow2Mono(12, k);
    }
  }

  /** `(0.20 / pn) as u64`: truncated and saturating; no time at all per nonce divides to infinity. */
  function Suggested(pn: real): U64
    requires pn >= 0.0
  {
    if pn == 0.0 then 0xFFFF_FFFF_FFFF_FFFF
    else
      QuotientPositive(pn);
      var q := (0.20 / pn).Floor;
      if q > 0xFFFF_FFFF_FFFF_FFFF then 0xFFFF_FFFF_FFFF_FFFF else q
  }

  lemma QuotientPositive(pn: real)
    requires pn > 0.0
    ensures 0.20 / pn >= 0.0 && (0.20 / pn).Floor >= 0
  {
  }

  /** The time for `n` nonces. */
  function Takes(n: nat, pn: real): real { n as real * pn }

  lemma TakesLonger(n: nat, m: nat, pn: real)
    requires n <= m && pn >= 0.0
    ensures Takes(n, pn) <= Takes(m, pn)
  {
    RealMulMono(n as real, m as real, pn);
  }

  /** The suggested number of nonces takes at most the target time. */
  lemma SuggestedFits(pn: real)
    requires pn >= 0.0
    ensures Takes(Suggested(pn), pn) <= 0.20
  {
    var n: nat := Suggested(pn);
    if pn > 0.0 {
      QuotientPositive(pn);
      var r := 0.20 / pn;
      assert r * pn == 0.20;
      assert n as real <= r;
      RealMulMono(n as real, r, pn);
    }
  }

  /** One nonce more takes longer than the target, unless the conversion saturates. */
  lemma SuggestedFills(pn: real)
    requires pn >= 0.0 && Suggested(pn) < 0xFFFF_FFFF_FFFF_FFFF
    ensures Takes(Suggested(pn) + 1, pn) > 0.20
  {
    var n: nat := Suggested(pn) + 1;
    QuotientPositive(pn);
    var r := 0.20 / pn;
    assert r * pn == 0.20;
    assert r < n as real;
    RealMulStrict(r, n as real, pn);
  }

  lemma RealMulStrict(a: real, b: real, c: real)
    requires a < b && c > 0.0
    ensures a * c < b * c
  {
    var d := b - a;
    assert d * c > 0.0;
    assert b * c == a * c + d * c;
  }

  lemma RealMulMono(a: real, b: real, c: real)
    requires a <= b && c >= 0.0
    ensures a * c <= b * c
  {
  }

  /** Calibration: double the batch until a dispatch is slow enough, then take whole workgroups of
      what the last time per nonce suggests. `seconds(k)` is the duration of dispatch `k`. */
  method Calibrate(localSize: nat, seconds: nat -> real) returns (batch: nat, ghost tried: seq<nat>)
    requires 0 < localSize < 0x1_0000_0000 && forall k :: seconds(k) >= 0.0
    ensures 0 < |tried| <= 12 && tried == Doublings(|tried|)
    ensures forall k :: 0 <= k < |tried| - 1 ==> seconds(k) < 0.20
    ensures |tried| < 12 ==> seconds(|tried| - 1) >= 0.20
    ensures var last := |tried| - 1;
            && Hashed(tried[last], localSize) > 0
            && var pn := PerNonce(seconds(last), Hashed(tried[last], localSize));
            && batch == SafeBatch(Suggested(pn), localSize)
            && (Takes(batch, pn) <= 0.20 || batch == localSize)
            && (Suggested(pn) < 0x1_0000_0000 ==> Takes(batch + localSize, pn) > 0.20)
  {
    hide Pow2, Doublings, SafeBatch, Suggested, PerNonce, Hashed, Takes;
    var b := 0x2000;
    var k := 0;
    tried := [];
    StartDoubling();
    var pn := 0.0;
    while b <= 0x100_0000
      invariant k == |tried| <= 12 && b == 0x2000 * Pow2(k) && tried == Doublings(k)
      invariant forall i :: 0 <= i < k ==> seconds(i) < 0.20
      invariant pn >= 0.0
      invariant k > 0 ==> && Hashed(tried[k - 1], localSize) > 0
                          && pn == PerNonce(seconds(k - 1), Hashed(tried[k - 1], localSize))
      decreases 12 - k
    {
      TwelveDoublings(k);
      HashedPositive(b, localSize);
      var hashes := Hashed(b, localSize);
      tried := tried + [b];
      var dt := seconds(k);
      pn := PerNonce(dt, hashes);
      if dt >= 0.20 {
        break;
      }
      Pow2Next(k);
      k := k + 1;
      b := b * 2;
    }
    TwelveDoublings(k);
    CalibratedInTime(pn, localSize);
    batch := SafeBatch(Suggested(pn), localSize);
  }

  /** The time per hashed nonce. */
  function PerNonce(dt: real, hashes: nat): (pn: real)
    requires dt >= 0.0 && hashes > 0
    ensures pn >= 0.0 && pn * hashes as real == dt
  {
    dt / hashes as real
  }

  lemma HashedPositive(n: nat, localSize: nat)
    requires n > 0 && localSize > 0
    ensures Hashed(n, localSize) >= n
  {
    var m := n + localSize - 1;
    DivMod(m, localSize);
    MulComm(localSize, m / localSize);
  }

  lemma StartDoubling()
    ensures Pow2(0) == 1 && Doublings(0) == []
  {
  }

  lemma Pow2Next(k: nat)
    ensures Pow2(k + 1) == 2 * Pow2(k)
  {
  }

  /** A suggestion that fits 32 bits, or a workgroup size that divides 2^32, gives whole workgroups. */
  lemma SafeBatchWhole(safe: U64, localSize: nat)
    requires 0 < localSize < 0x1_0000_0000
    requires safe < 0x1_0000_0000 || 0x1_0000_0000 % localSize == 0
    ensures SafeBatch(safe, localSize) % localSize == 0
    ensures safe < 0x1_0000_0000 ==> SafeBatch(safe, localSize) >= localSize
  {
    var q := if safe < localSize then 1 else safe / localSize;
    WholeSuggestion(safe, localSize, q);
    DivUnique(q * localSize, localSize, q, 0);
    MulComm(q, localSize);
    if safe >= 0x1_0000_0000 {
      ModOfMultiple(q, localSize);
    }
  }

  lemma WholeSuggestion(safe: U64, localSize: nat, q: nat)
    requires 0 < localSize && q == if safe < localSize then 1 else safe / localSize
    ensures SafeBatch(safe, localSize) == q * localSize % 0x1_0000_0000
    ensures localSize <= q * localSize && (q * localSize <= safe || q == 1)
  {
    DivMod(safe, localSize);
    MulComm(safe / localSize, localSize);
    if safe < localSize {
      DivUnique(safe, localSize, 0, safe);
    } else {
      if safe / localSize == 0 {
        DivMod(safe, localSize);
      }
      MulMono(1, q, localSize);
    }
  }

  /** Calibration gives whole workgroups whatever it measures exactly when the workgroup size divides 2^32. */
  lemma AlwaysWholeIff(localSize: nat)
    requires 0 < localSize < 0x1_0000_0000
    ensures (forall safe: U64 :: SafeBatch(safe, localSize) % localSize == 0) <==> 0x1_0000_0000 % localSize == 0
  {
    hide SafeBatch;
    if 0x1_0000_0000 % localSize == 0 {
      forall safe: U64
        ensures SafeBatch(safe, localSize) % localSize == 0
      {
        SafeBatchWhole(safe, localSize);
      }
    } else {
      var safe := CutSuggestion(localSize);
      assert SafeBatch(safe, localSize) % localSize != 0;
    }
  }

  /** The first multiple of the workgroup size past 2^32: the truncation leaves part of a workgroup. */
  lemma CutSuggestion(localSize: nat) returns (safe: U64)
    requires 0 < localSize < 0x1_0000_0000 && 0x1_0000_0000 % localSize != 0
    ensures SafeBatch(safe, localSize) % localSize != 0
  {
    var q, r := 0x1_0000_0000 / localSize, 0x1_0000_0000 % localSize;
    DivMod(0x1_0000_0000, localSize);
    DistAdd(localSize, q, 1);
    MulComm(q + 1, localSize);
    safe := 0x1_0000_0000 - r + localSize;
    assert safe == localSize * (q + 1);
    DivUnique(safe, localSize, q + 1, 0);
    WholeSuggestion(safe, localSize, q + 1);
    assert SafeBatch(safe, localSize) == localSize - r;
    DivUnique(localSize - r, localSize, 0, localSize - r);
  }

  /** Two suggestions that the truncation spoils. */
  lemma SpoiledSuggestions()
    ensures SafeBatch(4294967328, 96) == 32 && Hashed(32, 96) == 96
    ensures SafeBatch(0x1_0000_0000, 256) == 0
  {
  }

  /** A calibrated dispatch is expected to take the target time at most, unless one workgroup takes
      longer; and one workgroup more would take longer than the target, unless the suggestion is cut. */
  lemma CalibratedInTime(pn: real, localSize: nat)
    requires pn >= 0.0 && 0 < localSize < 0x1_0000_0000
    ensures var batch := SafeBatch(Suggested(pn), localSize);
            && (Takes(batch, pn) <= 0.20 || batch == localSize)
            && (Suggested(pn) < 0x1_0000_0000 ==> Takes(batch + localSize, pn) > 0.20)
  {
    var safe := Suggested(pn);
    hide Suggested, SafeBatch, Takes;
    var batch := SafeBatch(safe, localSize);
    BatchAtMost(safe, localSize);
    if batch <= safe {
      SuggestedFits(pn);
      TakesLonger(batch, safe, pn);
    }
    if safe < 0x1_0000_0000 {
      SafeBatchLeast(safe, localSize);
      MoreTakesLonger(pn, batch + localSize);
    }
  }

  lemma BatchAtMost(safe: U64, localSize: nat)
    requires 0 < localSize < 0x1_0000_0000
    ensures SafeBatch(safe, localSize) <= safe || SafeBatch(safe, localSize) == localSize
  {
    var q := if safe < localSize then 1 else safe / localSize;
    WholeSuggestion(safe, localSize, q);
  }

  lemma MoreTakesLonger(pn: real, n: nat)
    requires pn >= 0.0 && Suggested(pn) < 0x1_0000_0000 && Suggested(pn) < n
    ensures Takes(n, pn) > 0.20
  {
    SuggestedFills(pn);
    hide Suggested, Takes;
    TakesLonger(Suggested(pn) + 1, n, pn);
  }

  /** A suggestion below 2^32 is cut by less than a workgroup, or raised to one. */
  lemma SafeBatchLeast(safe: U64, localSize: nat)
    requires 0 < localSize < 0x1_0000_0000 && safe < 0x1_0000_0000
    ensures safe < SafeBatch(safe, localSize) + localSize
    ensures SafeBatch(safe, localSize) <= safe || SafeBatch(safe, localSize) == localSize
  {
    var q := if safe < localSize then 1 else safe / localSize;
    WholeSuggestion(safe, localSize, q);
    DivMod(safe, localSize);
    MulComm(q, localSize);
  }

  lemma ModOfMultiple(q: nat, d: nat)
    requires d > 0 && 0x1_0000_0000 % d == 0
    ensures q * d % 0x1_0000_0000 % d == 0
  {
    var m := 0x1_0000_0000;
    var e := m / d;
    DivMod(m, d);
    var j, r := q * d / m, q * d % m;
    MulMono(0, q, d);
    DivMod(q * d, m);
    assert m * j == d * (e * j) by { MulAssoc(d, e, j); }
    var k := q - e * j;
    DistSub(d, q, e * j);
    MulComm(d, q);
    assert r == d * k;
    MulComm(d, k);
    ModMul(k, d, 0);
  }

  // ---- the mining loop of one job ----

  /** One dispatch: its first nonce, the nonces it hashes, and whether its salt was drawn anew. */
  datatype Batch = Batch(start: nat, hashed: nat, drawn: bool)

  ghost predicate Inside(region: Region, b: Batch)
    requires region.bits <= 64
  {
    AllContained(region, b.start, b.hashed)
  }

  ghost predicate AllContained(region: Region, start: nat, n: nat)
    requires region.bits <= 64
  {
    forall nonce :: start <= nonce < start + n ==> region.Contains(nonce)
  }

  ghost predicate AllInside(region: Region, run: seq<Batch>)
    requires region.bits <= 64
  {
    forall b :: b in run ==> Inside(region, b)
  }

  function FreshSalt(rand: U64, span: nat, batch: nat): nat {
    if span <= batch then 0 else rand % (span - batch)
  }

  /** How many random numbers a run has used. */
  function Draws(run: seq<Batch>): nat {
    if run == [] then 0 else Draws(run[..|run| - 1]) + (if run[|run| - 1].drawn then 1 else 0)
  }

  /** A new salt is drawn first, and when another batch would pass the end of the region. */
  predicate MustDraw(region: Region, batch: nat, run: seq<Batch>)
    requires region.bits <= 64
  {
    run == [] || run[|run| - 1].start - region.Base() + 2 * batch > region.Span()
  }

  function NextBatch(region: Region, batch: nat, localSize: nat, rand: nat -> U64, run: seq<Batch>): Batch
    requires region.bits <= 64 && localSize > 0
  {
    var drawn := MustDraw(region, batch, run);
    Batch(if drawn then region.Base() + FreshSalt(rand(Draws(run)), region.Span(), batch) else run[|run| - 1].start + batch,
          Hashed(batch, localSize), drawn)
  }

  /** The first `n` dispatches of a job, `rand(k)` being the k-th random number. */
  function RunOf(region: Region, batch: nat, localSize: nat, rand: nat -> U64, n: nat): (run: seq<Batch>)
    requires region.bits <= 64 && localSize > 0
    ensures |run| == n
  {
    if n == 0 then []
    else
      var run := RunOf(region, batch, localSize, rand, n - 1);
      run + [NextBatch(region, batch, localSize, rand, run)]
  }

  /** The loop of the source while the job is current. More than 64 prefix bits underflow. */
  method MineJob(region: Region, batch: nat, localSize: nat, rand: nat -> U64, turns: nat)
    returns (run: Option<seq<Batch>>)
    requires region.extranonce < Pow2(region.bits) && localSize > 0
    ensures run == if region.bits <= 64 then Some(RunOf(region, batch, localSize, rand, turns)) else None
  {
    hide Hashed, Pow2, Region.Contains, Region.StartNonce, Region.Base, Region.Span, RunOf, Draws;
    if region.bits > 64 {
      return None;
    }
    RegionFits(region);
    var span := region.Span();
    var draws := 0;
    var salt := FreshSalt(rand(draws), span, batch);
    draws := draws + 1;
    var drawn := true;
    var out: seq<Batch> := [];
    RunStarts(region, batch, localSize, rand);
    for k := 0 to turns
      invariant 0 <= salt < span
      invariant out == RunOf(region, batch, localSize, rand, k)
      invariant drawn == MustDraw(region, batch, out)
      invariant draws == Draws(out) + (if drawn then 1 else 0)
      invariant region.Base() + salt == NextBatch(region, batch, localSize, rand, out).start
    {
      SaltPlace(region, salt);
      var startNonce := region.StartNonce(salt);
      RunGrows(region, batch, localSize, rand, k);
      out := out + [Batch(startNonce, Hashed(batch, localSize), drawn)];
      salt := salt + batch;
      drawn := false;
      if salt + batch > span {
        salt := FreshSalt(rand(draws), span, batch);
        draws := draws + 1;
        drawn := true;
      }
    }
    run := Some(out);
  }

  lemma RunStarts(region: Region, batch: nat, localSize: nat, rand: nat -> U64)
    requires region.Valid() && localSize > 0
    ensures RunOf(region, batch, localSize, rand, 0) == [] && Draws([]) == 0
  {
  }

  lemma RunGrows(region: Region, batch: nat, localSize: nat, rand: nat -> U64, k: nat)
    requires region.Valid() && localSize > 0
    ensures var run := RunOf(region, batch, localSize, rand, k);
            && RunOf(region, batch, localSize, rand, k + 1) == run + [NextBatch(region, batch, localSize, rand, run)]
            && Draws(run + [NextBatch(region, batch, localSize, rand, run)])
               == Draws(run) + (if MustDraw(region, batch, run) then 1 else 0)
  {
    hide Hashed, Pow2, FreshSalt;
    var run := RunOf(region, batch, localSize, rand, k);
    var b := NextBatch(region, batch, localSize, rand, run);
    assert (run + [b])[..k] == run;
  }

  /** Where a salt below the span puts the first nonce. */
  lemma SaltPlace(region: Region, salt: nat)
    requires region.Valid() && salt < region.Span()
    ensures salt < 0x1_0000_0000_0000_0000 && region.StartNonce(salt) == region.Base() + salt
  {
    hide Region.Contains, Region.Base, Region.Span, Pow2, Region.StartNonce;
    RegionFits(region);
    StartNonceSplits(region, salt);
    DivUnique(salt, region.Span(), 0, salt);
  }

  // ---- when a job stays inside its region ----

  /** The largest salt that some sequence of random numbers leads to. */
  function MaxSalt(span: nat, batch: nat): nat {
    if 2 * batch <= span then span - batch else if batch < span then span - batch - 1 else 0
  }

  lemma {:induction false} StartsWithin(region: Region, batch: nat, localSize: nat, rand: nat -> U64, n: nat, k: nat)
    requires region.Valid() && localSize > 0 && k < n
    ensures region.Base() <= RunOf(region, batch, localSize, rand, n)[k].start <= region.Base() + MaxSalt(region.Span(), batch)
    ensures RunOf(region, batch, localSize, rand, n)[k].hashed == Hashed(batch, localSize)
    decreases n
  {
    hide Hashed, Pow2, Region.Base, Draws;
    SpanPositive(region);
    hide Region.Span;
    var run := RunOf(region, batch, localSize, rand, n - 1);
    if k < n - 1 {
      StartsWithin(region, batch, localSize, rand, n - 1, k);
    } else {
      if n > 1 {
        StartsWithin(region, batch, localSize, rand, n - 1, n - 2);
      }
      FreshWithin(rand(Draws(run)), region.Span(), batch);
    }
  }

  lemma FreshWithin(r: U64, span: nat, batch: nat)
    requires span > 0
    ensures 0 <= FreshSalt(r, span, batch) <= MaxSalt(span, batch)
  {
    if batch < span {
      DivMod(r, span - batch);
    }
  }

  /** A drawn salt leaves room for the batch, all such salts are drawn, and numbers that differ by a multiple of
      the room draw the same one. */
  lemma EverySaltDrawn(salt: nat, rounds: nat, span: nat, batch: nat)
    requires salt < span - batch && salt + (span - batch) * rounds < 0x1_0000_0000_0000_0000
    ensures FreshSalt(salt + (span - batch) * rounds, span, batch) == salt
  {
    DivUnique(salt + (span - batch) * rounds, span - batch, rounds, salt);
  }

  /** A dispatch is inside exactly when it ends inside. */
  lemma InsideIff(region: Region, salt: nat, n: nat)
    requires region.Valid() && salt <= region.Span()
    ensures AllContained(region, region.Base() + salt, n) <==> n == 0 || salt + n <= region.Span()
  {
    hide Region.Contains, Region.Base, Region.Span, Pow2;
    RegionFits(region);
    if salt + n <= region.Span() {
      forall nonce | region.Base() + salt <= nonce < region.Base() + salt + n
        ensures region.Contains(nonce)
      {
        InRegion(region, nonce);
      }
    } else {
      PastRegion(region, region.Base() + region.Span());
    }
  }

  /** Every nonce that is hashed, rounding to whole workgroups included, carries the prefix, whatever
      numbers are drawn and however long the job lasts, exactly when the last place where a batch can
      start leaves room for it. */
  lemma RegionSafeIff(region: Region, batch: nat, localSize: nat)
    requires region.Valid() && localSize > 0
    ensures (forall rand: nat -> U64, turns: nat :: AllInside(region, RunOf(region, batch, localSize, rand, turns)))
            <==> MaxSalt(region.Span(), batch) + Hashed(batch, localSize) <= region.Span()
  {
    hide Hashed, RunOf, AllInside;
    if MaxSalt(region.Span(), batch) + Hashed(batch, localSize) <= region.Span() {
      forall rand: nat -> U64, turns: nat
        ensures AllInside(region, RunOf(region, batch, localSize, rand, turns))
      {
        RunInside(region, batch, localSize, rand, turns);
      }
    } else {
      var rand := LeavingDraws(region, batch, localSize, 2);
      assert !AllInside(region, RunOf(region, batch, localSize, rand, 2));
    }
  }

  lemma RunInside(region: Region, batch: nat, localSize: nat, rand: nat -> U64, turns: nat)
    requires region.Valid() && localSize > 0
    requires MaxSalt(region.Span(), batch) + Hashed(batch, localSize) <= region.Span()
    ensures AllInside(region, RunOf(region, batch, localSize, rand, turns))
  {
    hide Hashed, RunOf, Region.Base, Region.Span, MaxSalt, AllContained, Pow2;
    var run := RunOf(region, batch, localSize, rand, turns);
    forall b | b in run
      ensures Inside(region, b)
    {
      var k :| 0 <= k < turns && run[k] == b;
      StartsWithin(region, batch, localSize, rand, turns, k);
      InsideIff(region, b.start - region.Base(), b.hashed);
    }
  }

  /** Draws that lead a job out of its region when there is no room. */
  lemma LeavingDraws(region: Region, batch: nat, localSize: nat, turns: nat) returns (rand: nat -> U64)
    requires region.Valid() && localSize > 0 && turns >= 2
    requires MaxSalt(region.Span(), batch) + Hashed(batch, localSize) > region.Span()
    ensures !AllInside(region, RunOf(region, batch, localSize, rand, turns))
  {
    SpanPositive(region);
    RegionFits(region);
    var span := region.Span();
    assert batch > 0 by { NothingHashed(localSize); }
    var r: U64 := if 2 * batch <= span then span - 2 * batch else if batch < span then span - batch - 1 else 0;
    rand := (k: nat) => r;
    hide Hashed, Region.Base, Region.Span, AllContained, Pow2;
    FirstTwo(region, batch, localSize, rand, turns, r);
    var run := RunOf(region, batch, localSize, rand, turns);
    var k := if 2 * batch <= span then 1 else 0;
    StartsWithin(region, batch, localSize, rand, turns, k);
    assert run[k].start == region.Base() + MaxSalt(span, batch);
    InsideIff(region, MaxSalt(span, batch), Hashed(batch, localSize));
    assert run[k] in run && !Inside(region, run[k]);
  }

  lemma NothingHashed(localSize: nat)
    requires localSize > 0
    ensures Hashed(0, localSize) == 0
  {
    DivUnique(localSize - 1, localSize, 0, localSize - 1);
  }

  /** The first two starts of a run whose first draw is `r`. */
  lemma FirstTwo(region: Region, batch: nat, localSize: nat, rand: nat -> U64, n: nat, r: nat)
    requires region.Valid() && localSize > 0 && n >= 2 && rand(0) == r && 0 < batch
    requires if batch < region.Span() then r < region.Span() - batch else r == 0
    ensures var run := RunOf(region, batch, localSize, rand, n);
            && run[0].start == region.Base() + r
            && (r + 2 * batch <= region.Span() ==> run[1].start == region.Base() + r + batch)
  {
    hide Hashed, Region.Base, Region.Span, Pow2;
    RunPrefix(region, batch, localSize, rand, 2, n);
    if batch < region.Span() {
      DivUnique(r, region.Span() - batch, 0, r);
    }
    var one := RunOf(region, batch, localSize, rand, 1);
    assert RunOf(region, batch, localSize, rand, 0) == [];
    assert one == [NextBatch(region, batch, localSize, rand, [])];
    assert RunOf(region, batch, localSize, rand, 2) == one + [NextBatch(region, batch, localSize, rand, one)];
  }

  /** A longer run begins like a shorter one. */
  lemma {:induction false} RunPrefix(region: Region, batch: nat, localSize: nat, rand: nat -> U64, m: nat, n: nat)
    requires region.Valid() && localSize > 0 && m <= n
    ensures RunOf(region, batch, localSize, rand, n)[..m] == RunOf(region, batch, localSize, rand, m)
  {
    hide NextBatch;
    if m < n {
      RunPrefix(region, batch, localSize, rand, m, n - 1);
    }
  }

  /** With whole workgroups every single run, however drawn, is inside exactly when a batch fits. */
  lemma WholeBatchesIff(region: Region, batch: nat, localSize: nat, rand: nat -> U64, turns: nat)
    requires region.Valid() && localSize > 0 && turns > 0 && batch > 0 && batch % localSize == 0
    ensures AllInside(region, RunOf(region, batch, localSize, rand, turns)) <==> batch <= region.Span()
  {
    HashedMultiple(batch, localSize);
    SpanPositive(region);
    hide Hashed, RunOf, Region.Base, Region.Span, AllContained, Pow2;
    if batch <= region.Span() {
      RunInside(region, batch, localSize, rand, turns);
    } else {
      var run := RunOf(region, batch, localSize, rand, turns);
      StartsWithin(region, batch, localSize, rand, turns, 0);
      InsideIff(region, run[0].start - region.Base(), run[0].hashed);
      assert run[0] in run && !Inside(region, run[0]);
    }
  }

  /** Until the next draw, batches follow each other at distance `batch`; so two of them are disjoint
      exactly when rounding up leaves room, and always when batches are whole workgroups. */
  lemma {:induction false} BatchesDisjoint(region: Region, batch: nat, localSize: nat, rand: nat -> U64, n: nat, i: nat, j: nat)
    requires region.Valid() && localSize > 0 && i < j < n
    requires forall k :: i < k <= j ==> !RunOf(region, batch, localSize, rand, n)[k].drawn
    ensures var run := RunOf(region, batch, localSize, rand, n);
            && run[j].start == run[i].start + (j - i) * batch
            && (run[i].start + run[i].hashed <= run[j].start <==> Hashed(batch, localSize) <= (j - i) * batch)
            && (batch % localSize == 0 ==> run[i].start + run[i].hashed <= run[j].start)
  {
    hide Hashed, RunOf, NextBatch, Region.Base, Region.Span, Pow2;
    var run := RunOf(region, batch, localSize, rand, n);
    FollowsOn(region, batch, localSize, rand, n, j);
    if i < j - 1 {
      BatchesDisjoint(region, batch, localSize, rand, n, i, j - 1);
    }
    StepBack(j - i, batch);
    StartsWithin(region, batch, localSize, rand, n, i);
    if batch % localSize == 0 {
      HashedMultiple(batch, localSize);
      MulMono(1, j - i, batch);
    }
  }

  lemma StepBack(d: nat, batch: nat)
    requires d > 0
    ensures d * batch == (d - 1) * batch + batch
  {
  }

  lemma FollowsOn(region: Region, batch: nat, localSize: nat, rand: nat -> U64, n: nat, j: nat)
    requires region.Valid() && localSize > 0 && 0 < j < n && !RunOf(region, batch, localSize, rand, n)[j].drawn
    ensures RunOf(region, batch, localSize, rand, n)[j].start == RunOf(region, batch, localSize, rand, n)[j - 1].start + batch
  {
    RunPrefix(region, batch, localSize, rand, j + 1, n);
    hide Hashed, Draws, FreshSalt, Region.Base, Region.Span, Pow2;
    var run := RunOf(region, batch, localSize, rand, n);
    var before := RunOf(region, batch, localSize, rand, j);
    assert run[..j + 1][j] == run[j] && run[..j + 1][j - 1] == run[j - 1];
    assert RunOf(region, batch, localSize, rand, j + 1)[j - 1] == before[j - 1];
  }

  lemma SpanPositive(region: Region)
    requires region.Valid()
    ensures region.Span() > 0
  {
  }
}
