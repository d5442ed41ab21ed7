/** DAG generation on the GPU: one shader invocation per item, dispatched in chunks whose sizes
    follow the measured durations. */
module DagGeneration {
  import opened Bits
  import opened Words
  import opened Options
  import opened Ethash

  const DAG_LOCAL_SIZE: nat := 64

  /** What one dispatch of the generation shader is compiled and bound with. */
  datatype Kernel = Kernel(h: Hash512, light: Light, items: nat, parents: Word) {
    /** Item numbers and word addresses fit the shader's 32-bit arithmetic. */
    predicate Addressable() { 16 * |light| <= 0x1_0000_0000 && 16 * items <= 0x1_0000_0000 }

    /** The light cache as the shader sees it: its bytes, read as little-endian words. */
    ghost predicate Uploaded(gLight: seq<Word>) {
      |gLight| == 16 * |light| && forall i :: 0 <= i < |light| ==> gLight[16 * i..16 * i + 16] == ToWords(light[i])
    }

    function Word(k: nat): Words.Word
      requires k / 16 < 0x1_0000_0000
    {
      FlatWord(h, light, parents, k)
    }
  }

  /** The item's words, from the uploaded light cache. */
  method InvocationItem(kernel: Kernel, gLight: seq<Word>, node: Word) returns (mix: Item)
    requires kernel.Addressable() && kernel.Uploaded(gLight)
    ensures mix == DatasetItem(kernel.h, kernel.light, node, kernel.parents)
  {
    hide ToWords, HashItem, Xor, Fnv, FnvItem;
    var n := |kernel.light|;
    var base := node % n * 16;
    mix := gLight[base..base + 16];
    mix := mix[0 := Xor(mix[0], node)];
    mix := HashItem(kernel.h, mix);
    for k := 0 to kernel.parents
      invariant mix == MixAfter(kernel.h, kernel.light, node, k)
    {
      var p := Fnv(Xor(node, k), mix[k % 16]) % n;
      var parent := p * 16;
      var pw := gLight[parent..parent + 16];
      assert pw == ToWords(kernel.light[p]);
      mix := FnvLoop(mix, pw);
    }
    mix := HashItem(kernel.h, mix);
  }

  /** The invocation numbers of a dispatch. */
  function Below(n: nat): (r: set<nat>)
    ensures forall g :: g in r <==> 0 <= g < n
  {
    if n == 0 then {} else Below(n - 1) + {n - 1}
  }

  /** The private state of an invocation: its item's words, and how many of them it has stored. */
  datatype Local = Local(mix: Item, stored: nat)

  /** What has been submitted to the device: first item and workgroups of each dispatch. */
  datatype Sent = Sent(start: nat, groups: nat)

  class Queue {
    var sent: seq<Sent>

    constructor ()
      ensures sent == []
    {
      sent := [];
    }
  }

  /** Word `k` belongs to an item of the dispatch and has been stored. */
  ghost predicate Stored(k: nat, start: nat, n: nat, pending: set<nat>, running: map<nat, Local>) {
    && start <= k / 16 < start + n && k / 16 - start !in pending
    && (k / 16 - start in running ==> k % 16 < running[k / 16 - start].stored)
  }

  /** Invocations that have started and not finished hold their own item. */
  ghost predicate Running(kernel: Kernel, start: nat, n: nat, pending: set<nat>, running: map<nat, Local>) {
    && (forall g :: g in pending ==> g < n)
    && forall g :: g in running ==>
         && g < n && g !in pending && start + g < kernel.items && start + g < 0x1_0000_0000 && running[g].stored < 16
         && running[g].mix == DatasetItem(kernel.h, kernel.light, start + g, kernel.parents)
  }

  /** Words that are still to be stored. */
  ghost predicate Left(left: set<(nat, nat)>, pending: set<nat>, running: map<nat, Local>) {
    && (forall g, w :: g in pending && 0 <= w < 16 ==> (g, w) in left)
    && forall g, w :: g in running && running[g].stored <= w < 16 ==> (g, w) in left
  }

  /** From `was` to `now` exactly the stored words have become words of the DAG. */
  ghost predicate Progress(kernel: Kernel, start: nat, n: nat, pending: set<nat>, running: map<nat, Local>,
                           was: seq<Word>, now: seq<Word>)
    requires kernel.Addressable()
  {
    && |was| == |now| == 16 * kernel.items
    && forall k :: 0 <= k < |now| ==> now[k] == if Stored(k, start, n, pending, running) then kernel.Word(k) else was[k]
  }

  /** One dispatch: the invocations of all workgroups start in any order and store their words in any
      interleaving. */
  method Dispatch(kernel: Kernel, gLight: seq<Word>, dag: array<Word>, queue: Queue, start: nat, groups: nat)
    requires kernel.Addressable() && kernel.Uploaded(gLight) && dag.Length == 16 * kernel.items
    requires start + groups * DAG_LOCAL_SIZE <= 0x1_0000_0000
    modifies dag, queue
    ensures forall k :: 0 <= k < dag.Length ==>
      dag[k] == if start <= k / 16 < start + groups * DAG_LOCAL_SIZE then kernel.Word(k) else old(dag[k])
    ensures queue.sent == old(queue.sent) + [Sent(start, groups)]
  {
    hide Kernel.Uploaded, FlatWord, Kernel.Word, DatasetItem, Running, Left, Progress, Add, Mul, PlaceOf;
    queue.sent := queue.sent + [Sent(start, groups)];
    ghost var was := dag[..];
    var n := groups * DAG_LOCAL_SIZE;
    var pending := Below(n);
    var running: map<nat, Local> := map[];
    ghost var left := set g: nat, w: nat | g < n && w < 16 :: (g, w);
    NothingStored(kernel, start, n, pending, running, left, was);
    while pending != {} || running != map[]
      invariant Running(kernel, start, n, pending, running) && Left(left, pending, running)
      invariant Progress(kernel, start, n, pending, running, was, dag[..])
      invariant queue.sent == old(queue.sent) + [Sent(start, groups)]
      decreases |pending| + |left|
    {
      if
      case pending != {} =>
        var gid :| gid in pending;
        ghost var waiting, ran := pending, running;
        var l := StartInvocation(kernel, gLight, start, n, gid, pending, running);
        pending := pending - {gid};
        if l.Some? {
          running := running[gid := l.value];
        }
        Started(kernel, start, n, waiting, ran, gid, l, pending, running, left, was, dag[..]);
      case running != map[] =>
        var gid :| gid in running;
        var l := running[gid];
        RunningItem(kernel, start, n, pending, running, gid);
        WordStored(kernel, start, n, pending, running, gid, left, was, dag[..]);
        StoreWord(dag, start, gid, l);
        running := if l.stored == 15 then running - {gid} else running[gid := Local(l.mix, l.stored + 1)];
        left := left - {(gid, l.stored)};
    }
    AllStored(kernel, start, n, was, dag[..]);
  }

  /** An invocation stores its next word. */
  method StoreWord(dag: array<Word>, start: nat, gid: nat, l: Local)
    requires l.stored < 16 && start + gid < 0x1_0000_0000
    requires Add(Mul(Add(start, gid), 16), l.stored) == PlaceOf(start, gid, l.stored) < dag.Length
    modifies dag
    ensures dag[..] == old(dag[..])[PlaceOf(start, gid, l.stored) := l.mix[l.stored]]
  {
    var outBase := Mul(Add(start, gid), 16);
    dag[Add(outBase, l.stored)] := l.mix[l.stored];
  }

  /** An invocation computes its item, or ends at once past the last one. */
  method StartInvocation(kernel: Kernel, gLight: seq<Word>, start: nat, ghost n: nat, gid: nat,
                         ghost pending: set<nat>, ghost running: map<nat, Local>)
    returns (l: Option<Local>)
    requires kernel.Addressable() && kernel.Uploaded(gLight)
    requires Running(kernel, start, n, pending, running) && gid in pending && start + n <= 0x1_0000_0000
    ensures gid < n && start + gid < 0x1_0000_0000
    ensures l == if start + gid < kernel.items then Some(Local(DatasetItem(kernel.h, kernel.light, start + gid, kernel.parents), 0))
                 else None
  {
    hide Kernel.Uploaded, DatasetItem;
    var node := Add(start, gid);
    if node >= kernel.items {
      return None;
    }
    var mix := InvocationItem(kernel, gLight, node);
    l := Some(Local(mix, 0));
  }

  lemma NothingStored(kernel: Kernel, start: nat, n: nat, pending: set<nat>, running: map<nat, Local>, left: set<(nat, nat)>,
                      was: seq<Word>)
    requires kernel.Addressable() && |was| == 16 * kernel.items
    requires pending == Below(n) && running == map[]
    requires left == set g: nat, w: nat | g < n && w < 16 :: (g, w)
    ensures Running(kernel, start, n, pending, running) && Left(left, pending, running)
    ensures Progress(kernel, start, n, pending, running, was, was)
  {
    hide Kernel.Word;
  }

  /** Starting an invocation stores nothing. */
  lemma Started(kernel: Kernel, start: nat, n: nat, pending: set<nat>, running: map<nat, Local>, gid: nat, l: Option<Local>,
                pending': set<nat>, running': map<nat, Local>, left: set<(nat, nat)>, was: seq<Word>, now: seq<Word>)
    requires Running(kernel, start, n, pending, running) && Left(left, pending, running) && gid in pending
    requires kernel.Addressable() && Progress(kernel, start, n, pending, running, was, now)
    requires start + n <= 0x1_0000_0000 && gid < n && pending' == pending - {gid}
    requires l == if start + gid < kernel.items then Some(Local(DatasetItem(kernel.h, kernel.light, start + gid, kernel.parents), 0))
                  else None
    requires running' == if l.Some? then running[gid := l.value] else running
    ensures Running(kernel, start, n, pending', running') && Left(left, pending', running')
    ensures Progress(kernel, start, n, pending', running', was, now)
  {
    hide DatasetItem, Kernel.Word;
    forall k | 0 <= k < |now|
      ensures Stored(k, start, n, pending', running') <==> Stored(k, start, n, pending, running)
    {
    }
  }

  lemma RunningItem(kernel: Kernel, start: nat, n: nat, pending: set<nat>, running: map<nat, Local>, gid: nat)
    requires Running(kernel, start, n, pending, running) && gid in running && kernel.Addressable()
    ensures gid < n && start + gid < 0x1_0000_0000 && running[gid].stored < 16
    ensures Add(Mul(Add(start, gid), 16), running[gid].stored) == PlaceOf(start, gid, running[gid].stored) < 16 * kernel.items
    ensures running[gid].mix[running[gid].stored] == kernel.Word(PlaceOf(start, gid, running[gid].stored))
  {
    hide DatasetItem, Kernel.Word, Mul;
    var l, node := running[gid], start + gid;
    assert node < kernel.items && node < 0x1_0000_0000 && l.mix == DatasetItem(kernel.h, kernel.light, node, kernel.parents);
    hide Running;
    assert Add(start, gid) == node;
    hide Add;
    WordOfItem(kernel, node, l.stored);
    assert PlaceOf(start, gid, l.stored) == 16 * node + l.stored;
  }

  lemma WordOfItem(kernel: Kernel, node: Word, w: nat)
    requires w < 16 && node < kernel.items && kernel.Addressable()
    ensures Add(Mul(node, 16), w) == 16 * node + w < 16 * kernel.items
    ensures kernel.Word(16 * node + w) == DatasetItem(kernel.h, kernel.light, node, kernel.parents)[w]
  {
    hide DatasetItem;
    assert (16 * node + w) / 16 == node && (16 * node + w) % 16 == w;
  }

  /** Where an invocation's word goes. */
  function PlaceOf(start: nat, gid: nat, w: nat): nat { 16 * (start + gid) + w }

  /** Storing a word makes just that word stored. */
  lemma WordStored(kernel: Kernel, start: nat, n: nat, pending: set<nat>, running: map<nat, Local>, gid: nat,
                   left: set<(nat, nat)>, was: seq<Word>, now: seq<Word>)
    requires kernel.Addressable() && Running(kernel, start, n, pending, running) && Left(left, pending, running)
    requires gid in running && Progress(kernel, start, n, pending, running, was, now)
    ensures running[gid].stored < 16 && PlaceOf(start, gid, running[gid].stored) < |now|
    ensures var l := running[gid];
            var running' := if l.stored == 15 then running - {gid} else running[gid := Local(l.mix, l.stored + 1)];
            var k := PlaceOf(start, gid, l.stored);
            && Running(kernel, start, n, pending, running') && (gid, l.stored) in left
            && Left(left - {(gid, l.stored)}, pending, running')
            && Progress(kernel, start, n, pending, running', was, now[k := kernel.Word(k)])
  {
    hide DatasetItem, Kernel.Word;
    var l := running[gid];
    var running' := if l.stored == 15 then running - {gid} else running[gid := Local(l.mix, l.stored + 1)];
    forall k | 0 <= k < |now|
      ensures Stored(k, start, n, pending, running') <==>
              Stored(k, start, n, pending, running) || k == PlaceOf(start, gid, l.stored)
    {
      if k / 16 == start + gid {
        assert k == 16 * (start + gid) + k % 16;
      }
    }
  }

  lemma AllStored(kernel: Kernel, start: nat, n: nat, was: seq<Word>, now: seq<Word>)
    requires kernel.Addressable() && Progress(kernel, start, n, {}, map[], was, now)
    ensures |now| == |was| == 16 * kernel.items
    ensures forall k :: 0 <= k < |now| ==> now[k] == if start <= k / 16 < start + n then kernel.Word(k) else was[k]
  {
    hide Kernel.Word;
  }

  // ---- the adaptive loop ----

  function NextChunk(chunk: nat, dt: real): nat {
    if dt < 0.12 && chunk < 0x8_0000 then chunk * 2
    else if dt > 0.30 && chunk > 0x1000 then chunk / 2
    else chunk
  }

  /** The chunk of dispatch `k`: a power of two from 2^12 to 2^19, whatever the durations. */
  function ChunkAt(seconds: nat -> real, k: nat): (chunk: nat)
    ensures chunk in {0x1000, 0x2000, 0x4000, 0x8000, 0x1_0000, 0x2_0000, 0x4_0000, 0x8_0000}
  {
    if k == 0 then 0x1000 else NextChunk(ChunkAt(seconds, k - 1), seconds(k - 1))
  }

  /** A shorter dispatch never leads to a smaller chunk. */
  lemma FasterIsLarger(chunk: nat, dt: real, dt': real)
    requires dt <= dt'
    ensures NextChunk(chunk, dt) >= NextChunk(chunk, dt')
  {
  }

  /** While dispatches are fast the chunk doubles up to its limit. */
  lemma {:induction false} FastDoubles(seconds: nat -> real, k: nat)
    requires forall i :: 0 <= i < k ==> seconds(i) < 0.12
    ensures ChunkAt(seconds, k) == 0x1000 * Pow2(if k <= 7 then k else 7)
  {
    if k > 0 {
      FastDoubles(seconds, k - 1);
    }
    Pow2At7();
  }

  lemma Pow2At7()
    ensures Pow2(7) == 128 && Pow2(0) == 1
  {
  }

  /** After a slow dispatch the chunk is half of what it was, or the smallest. */
  lemma SlowHalves(seconds: nat -> real, k: nat)
    requires seconds(k) > 0.30
    ensures ChunkAt(seconds, k + 1) == if ChunkAt(seconds, k) == 0x1000 then 0x1000 else ChunkAt(seconds, k) / 2
  {
  }

  /** The dispatches from the `k`-th on, when items from `start` on are still to be generated. */
  function Plan(seconds: nat -> real, items: nat, k: nat, start: nat): seq<Sent>
    requires start <= items
    decreases items - start
  {
    if start == items then []
    else
      var n := if ChunkAt(seconds, k) <= items - start then ChunkAt(seconds, k) else items - start;
      [Sent(start, (n + 63) / 64)] + Plan(seconds, items, k + 1, start + n)
  }

  ghost predicate Covers(plan: seq<Sent>, item: nat) {
    exists m :: 0 <= m < |plan| && plan[m].start <= item < plan[m].start + 64 * plan[m].groups
  }

  /** The items of the `k`-th dispatch, when items from `start` on remain. */
  function Portion(seconds: nat -> real, items: nat, k: nat, start: nat): (n: nat)
    requires start < items
    ensures 0 < n <= items - start
  {
    if ChunkAt(seconds, k) <= items - start then ChunkAt(seconds, k) else items - start
  }

  lemma PlanUnfold(seconds: nat -> real, items: nat, k: nat, start: nat)
    requires start < items
    ensures var n := Portion(seconds, items, k, start);
            Plan(seconds, items, k, start) == [Sent(start, (n + 63) / 64)] + Plan(seconds, items, k + 1, start + n)
  {
    hide ChunkAt;
  }

  /** For every sequence of durations the dispatches cover every item. */
  lemma {:induction false} PlanCovers(seconds: nat -> real, items: nat, k: nat, start: nat, item: nat)
    requires start <= item < items
    ensures Covers(Plan(seconds, items, k, start), item)
    decreases items - start
  {
    hide Plan, Portion;
    PlanUnfold(seconds, items, k, start);
    var n := Portion(seconds, items, k, start);
    var rest := Plan(seconds, items, k + 1, start + n);
    var plan := [Sent(start, (n + 63) / 64)] + rest;
    if item < start + n {
      assert plan[0].start <= item < plan[0].start + 64 * plan[0].groups;
    } else {
      PlanCovers(seconds, items, k + 1, start + n, item);
      var m :| 0 <= m < |rest| && rest[m].start <= item < rest[m].start + 64 * rest[m].groups;
      assert plan[m + 1] == rest[m];
    }
  }

  /** Dispatch `m` starts where its predecessor's chunk ended. All but the last run a whole chunk; the
      last runs what is left, rounded up to a workgroup and never more than a chunk. */
  ghost predicate Tiled(plan: seq<Sent>, seconds: nat -> real, items: nat, k: nat, m: nat)
    requires m < |plan|
  {
    var d := plan[m];
    if m < |plan| - 1 then 64 * d.groups == ChunkAt(seconds, k + m) && plan[m + 1].start == d.start + ChunkAt(seconds, k + m)
    else 0 < 64 * d.groups <= ChunkAt(seconds, k + m) && items <= d.start + 64 * d.groups < items + 64
  }

  lemma {:induction false} PlanTiles(seconds: nat -> real, items: nat, k: nat, start: nat)
    requires start <= items
    ensures var plan := Plan(seconds, items, k, start);
            && (start < items <==> plan != []) && (plan != [] ==> plan[0].start == start)
            && forall m :: 0 <= m < |plan| ==> Tiled(plan, seconds, items, k, m)
    decreases items - start
  {
    if start < items {
      var n := Portion(seconds, items, k, start);
      PlanUnfold(seconds, items, k, start);
      FirstTile(seconds, items, k, start);
      hide Plan, Portion, ChunkAt;
      PlanTiles(seconds, items, k + 1, start + n);
      var rest := Plan(seconds, items, k + 1, start + n);
      var plan := [Sent(start, (n + 63) / 64)] + rest;
      forall m | 0 <= m < |plan|
        ensures Tiled(plan, seconds, items, k, m)
      {
        if m > 0 {
          LaterTile(plan, rest, seconds, items, k, m);
        }
      }
    }
  }

  lemma LaterTile(plan: seq<Sent>, rest: seq<Sent>, seconds: nat -> real, items: nat, k: nat, m: nat)
    requires |plan| == |rest| + 1 && plan[1..] == rest && 0 < m < |plan| && Tiled(rest, seconds, items, k + 1, m - 1)
    ensures Tiled(plan, seconds, items, k, m)
  {
    hide ChunkAt;
    assert plan[m] == rest[m - 1] && k + m == k + 1 + (m - 1);
    if m < |plan| - 1 {
      assert plan[m + 1] == rest[m];
    }
  }

  /** A chunk is whole workgroups, and the last portion fits it. */
  lemma FirstTile(seconds: nat -> real, items: nat, k: nat, start: nat)
    requires start < items
    ensures var n := Portion(seconds, items, k, start);
            var groups := (n + 63) / 64;
            if start + n < items then n == 64 * groups == ChunkAt(seconds, k)
            else 0 < 64 * groups <= ChunkAt(seconds, k) && items <= start + 64 * groups < items + 64
  {
    var chunk := ChunkAt(seconds, k);
    hide ChunkAt;
  }

  /** The adaptive loop, `seconds(k)` being the measured duration of dispatch `k`: it submits exactly the
      planned dispatches, and the buffer is then the whole DAG. */
  method GenerateDag(kernel: Kernel, gLight: seq<Word>, dag: array<Word>, queue: Queue, seconds: nat -> real)
    requires kernel.Addressable() && kernel.Uploaded(gLight) && dag.Length == 16 * kernel.items
    modifies dag, queue
    ensures forall k :: 0 <= k < dag.Length ==> dag[k] == kernel.Word(k)
    ensures queue.sent == old(queue.sent) + Plan(seconds, kernel.items, 0, 0)
  {
    hide Kernel.Uploaded, Kernel.Word, FlatWord, ChunkAt, Plan;
    var items := kernel.items;
    var start := 0;
    var chunk := 0x1000;
    var dispatches := 0;
    FirstChunk(seconds);
    while start < items
      invariant start <= items && chunk == ChunkAt(seconds, dispatches)
      invariant forall k :: 0 <= k < dag.Length && k / 16 < start ==> dag[k] == kernel.Word(k)
      invariant queue.sent + Plan(seconds, items, dispatches, start) == old(queue.sent) + Plan(seconds, items, 0, 0)
      decreases items - start
    {
      var n := if chunk <= items - start then chunk else items - start;
      PlanUnfold(seconds, items, dispatches, start);
      var groups := (n + 63) / DAG_LOCAL_SIZE;
      Dispatch(kernel, gLight, dag, queue, start, groups);
      var dt := seconds(dispatches);
      ChunkStep(seconds, dispatches);
      dispatches := dispatches + 1;
      start := start + n;
      if dt < 0.12 && chunk < 0x8_0000 {
        chunk := chunk * 2;
      } else if dt > 0.30 && chunk > 0x1000 {
        chunk := chunk / 2;
      }
    }
    NothingPlanned(seconds, items, dispatches);
  }

  lemma NothingPlanned(seconds: nat -> real, items: nat, k: nat)
    ensures Plan(seconds, items, k, items) == []
  {
  }

  lemma FirstChunk(seconds: nat -> real)
    ensures ChunkAt(seconds, 0) == 0x1000
  {
  }

  lemma ChunkStep(seconds: nat -> real, k: nat)
    ensures ChunkAt(seconds, k + 1) == NextChunk(ChunkAt(seconds, k), seconds(k))
  {
  }

  /** The uploaded bytes of a light cache, read word by word. */
  lemma {:induction false} FlattenedItem(cache: seq<Block>, i: nat)
    requires i < |cache|
    ensures Flatten(cache)[64 * i..64 * i + 64] == cache[i]
  {
    var last := |cache| - 1;
    if i < last {
      FlattenedItem(cache[..last], i);
    }
  }

  function WordsOfBytes(bytes: seq<Byte>): seq<Words.Word> {
    seq(|bytes| / 4, (j: nat) requires j < |bytes| / 4 =>
      LittleEndian(bytes[4 * j], bytes[4 * j + 1], bytes[4 * j + 2], bytes[4 * j + 3]))
  }

  lemma FlattenUploads(kernel: Kernel)
    ensures kernel.Uploaded(WordsOfBytes(Flatten(kernel.light)))
  {
    var bytes := Flatten(kernel.light);
    hide WordsOfBytes, ToWords, Flatten;
    WordCount(bytes);
    forall i | 0 <= i < |kernel.light|
      ensures WordsOfBytes(bytes)[16 * i..16 * i + 16] == ToWords(kernel.light[i])
    {
      FlattenedItem(kernel.light, i);
      UploadedRow(bytes, i, kernel.light[i]);
    }
  }

  lemma WordCount(bytes: seq<Byte>)
    ensures |WordsOfBytes(bytes)| == |bytes| / 4
  {
  }

  /** Sixty-four bytes read as sixteen words. */
  lemma UploadedRow(bytes: seq<Byte>, i: nat, b: Block)
    requires 64 * i + 64 <= |bytes| && bytes[64 * i..64 * i + 64] == b
    ensures |WordsOfBytes(bytes)| >= 16 * i + 16 && WordsOfBytes(bytes)[16 * i..16 * i + 16] == ToWords(b)
  {
    hide LittleEndian;
    var row := WordsOfBytes(bytes)[16 * i..16 * i + 16];
    forall w | 0 <= w < 16
      ensures row[w] == ToWords(b)[w]
    {
      assert b[4 * w] == bytes[64 * i + 4 * w] && b[4 * w + 1] == bytes[64 * i + 4 * w + 1];
      assert b[4 * w + 2] == bytes[64 * i + 4 * w + 2] && b[4 * w + 3] == bytes[64 * i + 4 * w + 3];
    }
  }

  /** The shader's address of word `w` of item `node`. */
  function Address(node: Words.Word, w: nat): nat { Mul(node, 16) + w }

  ghost predicate Reached(items: nat, k: nat) {
    exists node: Words.Word, w :: node < items && 0 <= w < 16 && Address(node, w) == k
  }

  /** Every word of the DAG is reached exactly when the word count fits 32 bits. */
  lemma AllWordsReached(items: nat)
    requires items < 0x1_0000_0000
    ensures (forall k :: 0 <= k < 16 * items ==> Reached(items, k)) <==> 16 * items <= 0x1_0000_0000
  {
    if 16 * items <= 0x1_0000_0000 {
      forall k | 0 <= k < 16 * items
        ensures Reached(items, k)
      {
        assert Address(k / 16, k % 16) == k;
      }
    } else {
      forall node: Words.Word, w | 0 <= w < 16
        ensures Address(node, w) < 0x1_0000_0000
      {
        assert Mul(node, 16) % 16 == 0;
      }
      assert !Reached(items, 0x1_0000_0000);
    }
  }
}
