/** The full DAG on disk: streamed in windows between the device buffer and a cache file. */
module DagStream {
  import opened Words
  import opened Arrays
  import opened Options
  import opened Ethash
  import opened DagGeneration
  import opened CacheFiles
  import opened CacheLog
  import opened DagCache

  /** The device buffer as bytes, little-endian. */
  function BytesOf(words: seq<Word>): (r: seq<Byte>)
    ensures |r| == 4 * |words|
  {
    seq(4 * |words|, (k: nat) requires k < 4 * |words| => ByteOf(words[k / 4], k % 4))
  }

  lemma BytesConcat(a: seq<Word>, b: seq<Word>)
    ensures BytesOf(a + b) == BytesOf(a) + BytesOf(b)
  {
    hide ByteOf;
    var n := 4 * |a|;
    forall k | 0 <= k < 4 * |a + b|
      ensures BytesOf(a + b)[k] == (BytesOf(a) + BytesOf(b))[k]
    {
      if k >= n {
        assert (k - n) / 4 == k / 4 - |a| && (k - n) % 4 == k % 4;
      }
    }
  }

  /** Reading back what was written gives the words. */
  lemma WordsOfBytesOf(words: seq<Word>)
    ensures WordsOfBytes(BytesOf(words)) == words
  {
    hide LittleEndian, ByteOf;
    forall j | 0 <= j < |words|
      ensures WordsOfBytes(BytesOf(words))[j] == words[j]
    {
      WordOfBytes(words[j]);
      assert (4 * j + 1) / 4 == j && (4 * j + 2) / 4 == j && (4 * j + 3) / 4 == j;
      assert (4 * j + 1) % 4 == 1 && (4 * j + 2) % 4 == 2 && (4 * j + 3) % 4 == 3 && (4 * j) % 4 == 0;
    }
  }

  lemma WordsConcat(a: seq<Byte>, b: seq<Byte>)
    requires |a| % 4 == 0 && |b| % 4 == 0
    ensures WordsOfBytes(a + b) == WordsOfBytes(a) + WordsOfBytes(b)
  {
    hide LittleEndian;
    var n := |a| / 4;
    forall j | 0 <= j < |a + b| / 4
      ensures WordsOfBytes(a + b)[j] == (WordsOfBytes(a) + WordsOfBytes(b))[j]
    {
      if j >= n {
        assert 4 * j - |a| == 4 * (j - n);
      }
    }
  }

  // ---- loading ----

  /** The header promises a payload of the full size. */
  method HasDag(dir: Directory, key: Key, seed: seq<Byte>, fullSize: U64) returns (ok: bool)
    requires dir.Valid() && key.kind == DagFile
    modifies dir`calls
    ensures ok ==> Promises(dir.files, key, seed, fullSize)
    ensures dir.NeverFails() ==> (ok <==> Promises(dir.files, key, seed, fullSize))
  {
    hide Replay, Name, CheckHeader;
    var n := dir.Call();
    if n != 0 || Name(key) !in dir.files {
      return false;
    }
    var raw := dir.files[Name(key)];
    n := dir.Call();
    if n != 0 || |raw| < HEADER_SIZE {
      return false;
    }
    ok := CheckHeader(raw[..HEADER_SIZE], key, seed) == Some(fullSize);
  }

  ghost predicate Promises(d: Disk, key: Key, seed: seq<Byte>, fullSize: U64) {
    && Name(key) in d && |d[Name(key)]| >= HEADER_SIZE
    && CheckHeader(d[Name(key)][..HEADER_SIZE], key, seed) == Some(fullSize)
  }

  /** The first `n` payload bytes of a file. */
  function PayloadBytes(raw: seq<Byte>, n: nat): seq<Byte>
    requires HEADER_SIZE + n <= |raw|
  {
    raw[HEADER_SIZE..HEADER_SIZE + n]
  }

  /** Reads one window into the staging buffer and copies it to the device; a short file is an error. */
  method LoadWindow(dir: Directory, raw: seq<Byte>, dag: array<Word>, pos: nat, size: nat) returns (ok: bool)
    requires pos % 4 == 0 && size % 4 == 0 && 0 < size && pos + size <= 4 * dag.Length
    requires pos > 0 ==> HEADER_SIZE + pos <= |raw| && dag[..pos / 4] == WordsOfBytes(PayloadBytes(raw, pos))
    modifies dir`calls, dag
    ensures ok ==> HEADER_SIZE + pos + size <= |raw|
                   && dag[..(pos + size) / 4] == WordsOfBytes(PayloadBytes(raw, pos + size))
    ensures dir.NeverFails() && HEADER_SIZE + pos + size <= |raw| ==> ok
  {
    hide WordsOfBytes;
    var n := dir.Call();
    if n != 0 || |raw| < HEADER_SIZE + pos + size {
      return false;
    }
    var buf := raw[HEADER_SIZE + pos..HEADER_SIZE + pos + size];
    n := dir.Call();
    if n != 0 {
      return false;
    }
    assert |WordsOfBytes(buf)| == size / 4 by { WordCount(buf); }
    assert pos / 4 + size / 4 == (pos + size) / 4;
    NextPayload(raw, pos, size);
    hide PayloadBytes;
    ghost var before := dag[..pos / 4];
    CopyInto(dag, pos / 4, WordsOfBytes(buf));
    assert dag[..(pos + size) / 4] == before + WordsOfBytes(buf);
    if pos > 0 {
      WordsConcat(PayloadBytes(raw, pos), buf);
    }
    ok := true;
  }

  lemma NextPayload(raw: seq<Byte>, pos: nat, size: nat)
    requires HEADER_SIZE + pos + size <= |raw|
    ensures PayloadBytes(raw, pos) + raw[HEADER_SIZE + pos..HEADER_SIZE + pos + size] == PayloadBytes(raw, pos + size)
    ensures |PayloadBytes(raw, pos)| == pos && PayloadBytes(raw, 0) == []
  {
  }

  /** Uploads a cached DAG window by window. On success the buffer is the file's payload. */
  method LoadDag(dir: Directory, key: Key, dag: array<Word>) returns (ok: bool)
    requires dir.Valid() && dag.Length > 0
    modifies dir`calls, dag
    ensures ok ==> && Name(key) in dir.files && HEADER_SIZE + 4 * dag.Length <= |dir.files[Name(key)]|
                   && dag[..] == WordsOfBytes(PayloadBytes(dir.files[Name(key)], 4 * dag.Length))
    ensures dir.NeverFails()
            && Name(key) in dir.files && HEADER_SIZE + 4 * dag.Length <= |dir.files[Name(key)]|
            ==> ok
  {
    hide Replay, Name, WordsOfBytes, PayloadBytes;
    var full := 4 * dag.Length;
    var n := dir.Call();
    if n != 0 || Name(key) !in dir.files {
      return false;
    }
    var raw := dir.files[Name(key)];
    n := dir.Call();
    if n != 0 {
      return false;
    }
    var pos := 0;
    while pos < full
      invariant pos <= full && pos % 4 == 0
      invariant pos > 0 ==> HEADER_SIZE + pos <= |raw| && dag[..pos / 4] == WordsOfBytes(PayloadBytes(raw, pos))
    {
      var size := if DAG_STAGING_BYTES <= full - pos then DAG_STAGING_BYTES else full - pos;
      var loaded := LoadWindow(dir, raw, dag, pos, size);
      if !loaded {
        return false;
      }
      pos := pos + size;
    }
    assert dag[..] == dag[..pos / 4];
    ok := true;
  }

  // ---- saving ----

  /** Streams the device buffer into the writer, window by window. */
  method WriteWindows(w: Writer, dag: array<Word>) returns (ok: bool)
    requires w.Valid() && dag.Length > 0
    modifies w, w.dir
    ensures w.Valid() && Quiet(old(w.dir.log), w.dir.log)
    ensures ok ==> w.sent == old(w.sent) + BytesOf(dag[..])
    ensures w.dir.NeverFails() ==> ok
  {
    hide Replay, TmpName, BytesOf, Quiet;
    var full := 4 * dag.Length;
    ghost var before := w.dir.log;
    assert Quiet(before, before) by { QuietSelf(before); }
    assert dag[..0] == [] && BytesOf([]) == [] by { NoBytes(); }
    var pos := 0;
    while pos < full
      invariant pos <= full && pos % 4 == 0
      invariant w.Valid() && Quiet(before, w.dir.log)
      invariant w.sent == old(w.sent) + BytesOf(dag[..pos / 4])
    {
      var size := if DAG_STAGING_BYTES <= full - pos then DAG_STAGING_BYTES else full - pos;
      var n := w.dir.Call();
      if n != 0 {
        return false;
      }
      var data := BytesOf(dag[pos / 4..(pos + size) / 4]);
      BytesConcat(dag[..pos / 4], dag[pos / 4..(pos + size) / 4]);
      assert dag[..(pos + size) / 4] == dag[..pos / 4] + dag[pos / 4..(pos + size) / 4];
      ghost var mid := w.dir.log;
      var wrote := w.WriteAll(data);
      QuietTrans(before, mid, w.dir.log);
      if !wrote {
        return false;
      }
      pos := pos + size;
    }
    assert dag[..pos / 4] == dag[..];
    ok := true;
  }

  lemma QuietSelf(log: seq<Event>)
    ensures Quiet(log, log)
  {
  }

  lemma NoBytes()
    ensures BytesOf([]) == []
  {
  }

  /** The file appears whole, holding the buffer's bytes, or not at all. */
  method WriteDag(dir: Directory, key: Key, seed: seq<Byte>, dag: array<Word>) returns (ok: bool)
    requires dir.Valid() && dag.Length > 0 && 4 * dag.Length < 0x1_0000_0000_0000_0000
    modifies dir
    ensures dir.Valid()
    ensures ok ==> Committed(old(dir.log), dir.log, key, seed, BytesOf(dag[..]))
    ensures !ok ==> Quiet(old(dir.log), dir.log)
    ensures dir.NeverFails() ==> ok
  {
    hide Replay, Name, TmpName, PackHeader, Committed, Quiet, BytesOf;
    ghost var before := dir.log;
    var w := CreateWriter(dir, key);
    if w == null {
      return false;
    }
    ghost var l1 := dir.log;
    var wrote := w.WriteAll(PackHeader(key, 4 * dag.Length, seed));
    QuietTrans(before, l1, dir.log);
    l1 := dir.log;
    if !wrote {
      w.Abort();
      QuietTrans(before, l1, dir.log);
      return false;
    }
    var n := dir.Call();
    if n != 0 {
      return false;
    }
    wrote := WriteWindows(w, dag);
    QuietTrans(before, l1, dir.log);
    l1 := dir.log;
    if !wrote {
      w.Abort();
      QuietTrans(before, l1, dir.log);
      return false;
    }
    assert |BytesOf(dag[..])| == 4 * dag.Length by { ByteCount(dag[..]); }
    ok := w.Commit(seed, BytesOf(dag[..]));
    if ok {
      CommittedFrom(before, l1, dir.log, key, seed, BytesOf(dag[..]));
    } else {
      QuietTrans(before, l1, dir.log);
    }
  }

  lemma ByteCount(words: seq<Word>)
    ensures |BytesOf(words)| == 4 * |words|
  {
  }

  /** Saves the DAG and prunes. If it is the newest it can then be loaded, and the newest two stay. */
  method SaveDag(dir: Directory, key: Key, seed: seq<Byte>, dag: array<Word>, stamp: string -> Option<int>) returns (ok: bool)
    requires dir.Valid() && key.kind == DagFile && dag.Length > 0 && 4 * dag.Length < 0x1_0000_0000_0000_0000
    modifies dir
    ensures dir.Valid() && SaveOutcome(old(dir.log), dir.log, key, seed, BytesOf(dag[..]), ok)
    ensures dir.NeverFails() ==> ok
    ensures ok ==> KeptNewest(old(dir.files), dir.files, key, 2, stamp, dir.NeverFails())
    ensures ok && IsNewest(old(dir.files), key, stamp) ==>
              Present(dir.log, key) && Read(dir.files, key, seed) == Some(BytesOf(dag[..]))
  {
    hide Replay, SaveOutcome, Committed, Quiet, KeptNewest, IsNewest, Directory.NeverFails, Last, Present, Read, Legal, Name, BytesOf;
    ghost var before := dir.log;
    ok := WriteDag(dir, key, seed, dag);
    if !ok {
      QuietOutcome(before, dir.log, key, seed, BytesOf(dag[..]));
      return;
    }
    PruneAfterCommit(dir, key, KEEP_DAG, stamp, before, seed, BytesOf(dag[..]));
    LastOfOutcome(before, dir.log, key, seed, BytesOf(dag[..]));
    if IsNewest(Replay(before), key, stamp) {
      SavedIsRead(dir.log, key, seed, BytesOf(dag[..]));
    }
  }

  /** After every history a file that promises a payload holds all of it. */
  lemma PromisedIsWhole(log: seq<Event>, key: Key, seed: seq<Byte>, fullSize: U64)
    requires Legal(log) && Promises(Replay(log), key, seed, fullSize)
    ensures |Replay(log)[Name(key)]| == HEADER_SIZE + fullSize
  {
    LegalKeeps(log, key);
    var c := Last(log, key).value;
    HeaderTells(key, c.seed, |c.payload|, key, seed);
    hide Replay, Name, CheckHeader, PackHeader, Seed32;
    assert Replay(log)[Name(key)][..HEADER_SIZE] == PackHeader(key, |c.payload|, c.seed);
  }

  /** A load after every history: if it succeeds, the buffer is the one of the last committed save. */
  lemma LoadedIsLastSaved(log: seq<Event>, key: Key, seed: seq<Byte>, words: seq<Word>)
    requires Legal(log) && |words| > 0 && 4 * |words| < 0x1_0000_0000_0000_0000
    requires Promises(Replay(log), key, seed, 4 * |words|)
    requires HEADER_SIZE + 4 * |words| <= |Replay(log)[Name(key)]|
    requires words == WordsOfBytes(PayloadBytes(Replay(log)[Name(key)], 4 * |words|))
    ensures Last(log, key).Some? && Seed32(Last(log, key).value.seed) == Seed32(seed)
    ensures words == WordsOfBytes(Last(log, key).value.payload)
  {
    ReadFindsLastCommit(log, key, seed);
    ReadPromised(Replay(log), key, seed, 4 * |words|);
    hide Replay, Name, CheckHeader, WordsOfBytes, Seed32, Read, Last, Present, PayloadBytes, Promises;
  }

  lemma ReadPromised(d: Disk, key: Key, seed: seq<Byte>, n: U64)
    requires Promises(d, key, seed, n) && HEADER_SIZE + n <= |d[Name(key)]|
    ensures Read(d, key, seed) == Some(PayloadBytes(d[Name(key)], n))
  {
    hide Name, CheckHeader;
  }
}
