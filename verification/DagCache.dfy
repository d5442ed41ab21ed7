/** The disk cache: an atomic writer, loads, streamed DAG files and pruning, over a directory in which
    any system call may fail. */
module DagCache {
  import opened Words
  import opened Options
  import opened CacheFiles
  import opened CacheLog

  const KEEP_DAG: nat := 2
  const KEEP_LIGHT: nat := 4
  const DAG_STAGING_BYTES: nat := 0x400_0000

  lemma LegalStep(log: seq<Event>, e: Event)
    requires Legal(log) && Permitted(Replay(log), e)
    ensures Legal(log + [e]) && Replay(log + [e]) == Apply(Replay(log), e)
  {
    hide Permitted, Apply;
    assert (log + [e])[..|log|] == log;
    forall i | 0 <= i < |log + [e]|
      ensures Permitted(Replay((log + [e])[..i]), (log + [e])[i])
    {
      if i < |log| {
        assert (log + [e])[..i] == log[..i];
      }
    }
  }

  /** The directory, its history, and the fate of every system call: 0 is success. */
  class Directory {
    const luck: nat -> nat
    var files: Disk
    var calls: nat
    ghost var log: seq<Event>

    ghost predicate Valid()
      reads this
    {
      Legal(log) && files == Replay(log)
    }

    /** Every system call succeeds. */
    ghost predicate NeverFails() { forall t :: luck(t) == 0 }

    constructor (luck: nat -> nat)
      ensures Valid() && log == [] && this.luck == luck
    {
      this.luck := luck;
      files, log, calls := map[], [], 0;
    }

    method Call() returns (n: nat)
      modifies this`calls
      ensures n == luck(old(calls)) && calls == old(calls) + 1
    {
      n := luck(calls);
      calls := calls + 1;
    }

    method OpenTmp(k: Key)
      requires Valid()
      modifies this`files, this`log
      ensures Valid() && log == old(log) + [Open(k)] && files == Apply(old(files), Open(k))
    {
      LegalStep(log, Open(k));
      files := files[TmpName(k) := []];
      log := log + [Open(k)];
    }

    method Append(k: Key, more: seq<Byte>)
      requires Valid() && TmpName(k) in files
      modifies this`files, this`log
      ensures Valid() && log == old(log) + [Arrive(k, more)] && files == Apply(old(files), Arrive(k, more))
    {
      LegalStep(log, Arrive(k, more));
      files := files[TmpName(k) := files[TmpName(k)] + more];
      log := log + [Arrive(k, more)];
    }

    method RenameTmp(k: Key, ghost seed: seq<Byte>, ghost payload: seq<Byte>)
      requires Valid() && Permitted(files, Rename(k, seed, payload))
      modifies this`files, this`log
      ensures Valid() && log == old(log) + [Rename(k, seed, payload)]
    {
      LegalStep(log, Rename(k, seed, payload));
      files := (files - {TmpName(k)})[Name(k) := files[TmpName(k)]];
      log := log + [Rename(k, seed, payload)];
    }

    method RemoveTmp(k: Key)
      requires Valid()
      modifies this`files, this`log
      ensures Valid() && log == old(log) + [DropTmp(k)]
    {
      LegalStep(log, DropTmp(k));
      files := files - {TmpName(k)};
      log := log + [DropTmp(k)];
    }

    method RemoveFile(name: string, ghost kind: Kind, ghost variant: Hash.Variant)
      requires Valid() && Listed(name, kind, variant)
      modifies this`files, this`log
      ensures Valid() && log == old(log) + [Forget(name)] && files == old(files) - {name}
    {
      LegalStep(log, Forget(name));
      files := files - {name};
      log := log + [Forget(name)];
    }
  }

  // ---- the writer ----

  /** Between two histories nothing was committed and nothing pruned. */
  ghost predicate Quiet(before: seq<Event>, after: seq<Event>) {
    && |before| <= |after| && after[..|before|] == before
    && forall i :: |before| <= i < |after| ==> !after[i].Rename? && !after[i].Forget?
  }

  lemma QuietSame(before: seq<Event>, after: seq<Event>, k: Key)
    requires Quiet(before, after)
    ensures Last(after, k) == Last(before, k) && Present(after, k) == Present(before, k)
  {
    hide Last, Present;
    QuietKeeps(before, after[|before|..], k);
    assert before + after[|before|..] == after;
  }

  /** Between two histories only temporary files changed, then one save was committed. */
  ghost predicate Committed(before: seq<Event>, after: seq<Event>, k: Key, seed: seq<Byte>, payload: seq<Byte>) {
    |after| > 0 && Quiet(before, after[..|after| - 1]) && after[|after| - 1] == Rename(k, seed, payload)
  }

  lemma CommittedLast(before: seq<Event>, after: seq<Event>, k: Key, seed: seq<Byte>, payload: seq<Byte>, k': Key)
    requires Committed(before, after, k, seed, payload)
    ensures Last(after, k') == if k' == k then Some(Commit(seed, payload)) else Last(before, k')
    ensures Present(after, k') == (k' == k || Present(before, k'))
  {
    QuietSame(before, after[..|after| - 1], k');
    hide Quiet;
  }

  class Writer {
    const dir: Directory
    const key: Key
    /** Everything handed over; a buffer may still hold back its end. */
    var sent: seq<Byte>

    ghost predicate Valid()
      reads this, dir
    {
      dir.Valid() && TmpName(key) in dir.files && dir.files[TmpName(key)] <= sent
    }

    constructor (dir: Directory, key: Key)
      requires dir.Valid() && TmpName(key) in dir.files && dir.files[TmpName(key)] == []
      ensures this.dir == dir && this.key == key && sent == [] && Valid()
    {
      this.dir, this.key, sent := dir, key, [];
    }

    /** Some of the bytes held back reach the file. */
    method Drain(limit: nat)
      requires Valid()
      modifies dir`files, dir`log
      ensures Valid() && Quiet(old(dir.log), dir.log)
      ensures limit >= |sent| ==> dir.files[TmpName(key)] == sent
    {
      hide Replay, Name, TmpName;
      var rest := sent[|dir.files[TmpName(key)]|..];
      dir.Append(key, if limit < |rest| then rest[..limit] else rest);
    }

    method WriteAll(data: seq<Byte>) returns (ok: bool)
      requires Valid()
      modifies this, dir
      ensures Valid() && Quiet(old(dir.log), dir.log) && sent == old(sent) + data
      ensures dir.NeverFails() ==> ok
    {
      hide Replay, Name, TmpName, Quiet;
      var n := dir.Call();
      sent := sent + data;
      var limit := dir.Call();
      Drain(limit);
      ok := n == 0;
    }

    /** Flush, then rename. The file appears whole or not at all. */
    method Commit(ghost seed: seq<Byte>, ghost payload: seq<Byte>) returns (ok: bool)
      requires Valid() && |payload| < 0x1_0000_0000_0000_0000 && sent == Pack(key, seed, payload)
      modifies dir
      ensures dir.Valid()
      ensures ok ==> Committed(old(dir.log), dir.log, key, seed, payload)
      ensures !ok ==> Quiet(old(dir.log), dir.log)
      ensures dir.NeverFails() ==> ok
    {
      hide Replay, Name, TmpName, Pack;
      var n := dir.Call();
      if n != 0 {
        Drain(n);
        return false;
      }
      Drain(|sent|);
      n := dir.Call();
      if n != 0 {
        return false;
      }
      ghost var mid := dir.log;
      dir.RenameTmp(key, seed, payload);
      assert dir.log[..|dir.log| - 1] == mid;
      ok := true;
    }

    method Abort()
      requires Valid()
      modifies dir
      ensures dir.Valid() && Quiet(old(dir.log), dir.log)
    {
      hide Replay, Name, TmpName;
      var n := dir.Call();
      if n == 0 {
        dir.RemoveTmp(key);
      }
    }
  }

  method CreateWriter(dir: Directory, key: Key) returns (w: Writer?)
    requires dir.Valid()
    modifies dir
    ensures dir.Valid() && Quiet(old(dir.log), dir.log)
    ensures w != null ==> fresh(w) && w.dir == dir && w.key == key && w.sent == [] && w.Valid()
    ensures dir.NeverFails() ==> w != null
  {
    hide Replay, Name, TmpName;
    var n := dir.Call();
    if n != 0 {
      return null;
    }
    dir.OpenTmp(key);
    w := new Writer(dir, key);
  }

  // ---- the light cache, whole ----

  /** What a save may change: the last commit of its own key, and by pruning which files of its kind
      and variant remain. */
  ghost predicate SaveOutcome(before: seq<Event>, after: seq<Event>, key: Key, seed: seq<Byte>, payload: seq<Byte>, ok: bool) {
    && (forall k :: Last(after, k) == if ok && k == key then Some(Commit(seed, payload)) else Last(before, k))
    && (forall k :: Present(after, k) ==> Present(before, k) || (ok && k == key))
    && (forall k :: Present(before, k) && !Present(after, k) ==> ok && k.kind == key.kind && k.variant == key.variant)
  }

  lemma QuietOutcome(before: seq<Event>, after: seq<Event>, key: Key, seed: seq<Byte>, payload: seq<Byte>)
    requires Quiet(before, after)
    ensures SaveOutcome(before, after, key, seed, payload, false)
  {
    hide Quiet, Last, Present;
    forall k
      ensures Last(after, k) == Last(before, k) && Present(after, k) == Present(before, k)
    {
      QuietSame(before, after, k);
    }
  }

  lemma PrunedOutcome(before: seq<Event>, mid: seq<Event>, after: seq<Event>, key: Key, seed: seq<Byte>, payload: seq<Byte>)
    requires Committed(before, mid, key, seed, payload) && OnlyForgets(mid, after, key.kind, key.variant)
    ensures SaveOutcome(before, after, key, seed, payload, true)
  {
    hide Committed, Last, Present, OnlyForgets;
    forall k
      ensures Last(after, k) == if k == key then Some(Commit(seed, payload)) else Last(before, k)
      ensures Present(after, k) ==> Present(before, k) || k == key
      ensures Present(before, k) && !Present(after, k) ==> k.kind == key.kind && k.variant == key.variant
    {
      CommittedLast(before, mid, key, seed, payload, k);
      ForgetsKeep(mid, after, key.kind, key.variant, k);
    }
  }

  /** Between two histories only files of one kind and variant were removed. */
  ghost predicate OnlyForgets(before: seq<Event>, after: seq<Event>, kind: Kind, variant: Hash.Variant) {
    && |before| <= |after| && after[..|before|] == before
    && forall i :: |before| <= i < |after| ==> after[i].Forget? && Listed(after[i].name, kind, variant)
  }

  lemma {:induction false} ForgetsKeep(before: seq<Event>, after: seq<Event>, kind: Kind, variant: Hash.Variant, k: Key)
    requires OnlyForgets(before, after, kind, variant)
    ensures Last(after, k) == Last(before, k)
    ensures Present(after, k) ==> Present(before, k)
    ensures Present(before, k) && !Present(after, k) ==> k.kind == kind && k.variant == variant
    decreases |after|
  {
    hide Name, Listed;
    if |after| > |before| {
      var last := |after| - 1;
      assert after[..last][..|before|] == before;
      ForgetsKeep(before, after[..last], kind, variant, k);
      ListedIff(k, kind, variant);
    } else {
      assert after == before;
    }
  }

  /** Header and payload, then the rename: a commit, or no visible change. */
  method WriteWhole(dir: Directory, key: Key, seed: seq<Byte>, data: seq<Byte>) returns (ok: bool)
    requires dir.Valid() && |data| < 0x1_0000_0000_0000_0000
    modifies dir
    ensures dir.Valid()
    ensures ok ==> Committed(old(dir.log), dir.log, key, seed, data)
    ensures !ok ==> Quiet(old(dir.log), dir.log)
    ensures dir.NeverFails() ==> ok
  {
    hide Replay, Name, TmpName, PackHeader, Committed, Quiet, Directory.NeverFails;
    ghost var before := dir.log;
    var w := CreateWriter(dir, key);
    if w == null {
      return false;
    }
    ghost var l1 := dir.log;
    var wrote := w.WriteAll(PackHeader(key, |data|, seed));
    QuietTrans(before, l1, dir.log);
    if wrote {
      l1 := dir.log;
      wrote := w.WriteAll(data);
      QuietTrans(before, l1, dir.log);
    }
    l1 := dir.log;
    if !wrote {
      w.Abort();
      QuietTrans(before, l1, dir.log);
      return false;
    }
    ok := w.Commit(seed, data);
    if ok {
      CommittedFrom(before, l1, dir.log, key, seed, data);
    } else {
      QuietTrans(before, l1, dir.log);
    }
  }

  lemma QuietTrans(a: seq<Event>, b: seq<Event>, c: seq<Event>)
    requires Quiet(a, b) && Quiet(b, c)
    ensures Quiet(a, c)
  {
  }

  /** The saved file is newer than every other that pruning looks at. */
  ghost predicate IsNewest(before: Disk, key: Key, stamp: string -> Option<int>) {
    stamp(Name(key)).Some? ==>
      forall n :: n in before && n != Name(key) && Listed(n, key.kind, key.variant) && stamp(n).Some? ==>
        stamp(n).value < stamp(Name(key)).value
  }

  /** Of the files listed, with the saved one, the newest `keep` are still there, and none of the others
      if nothing failed. */
  ghost predicate KeptNewest(before: Disk, after: Disk, key: Key, keep: nat, stamp: string -> Option<int>, exactly: bool) {
    exists newest: seq<string> ::
      && NewestFirst(newest, stamp) && Distinct(newest) && ListsAll(newest, before, key, stamp)
      && forall i :: 0 <= i < |newest| ==> if i < keep then newest[i] in after else exactly ==> newest[i] !in after
  }

  /** The names are those of the listed files of a directory to which the saved file was added. */
  ghost predicate ListsAll(newest: seq<string>, before: Disk, key: Key, stamp: string -> Option<int>) {
    forall n :: n in newest <==> (n in before || n == Name(key)) && Listed(n, key.kind, key.variant) && stamp(n).Some?
  }

  /** Only temporary files change quietly, and they are never listed. */
  lemma {:induction false} QuietFiles(before: seq<Event>, after: seq<Event>, n: string, kind: Kind, variant: Hash.Variant)
    requires Quiet(before, after) && Listed(n, kind, variant)
    ensures n in Replay(after) <==> n in Replay(before)
    decreases |after|
  {
    hide Name, TmpName, Listed;
    if |after| > |before| {
      var last := |after| - 1;
      assert after[..last][..|before|] == before;
      QuietFiles(before, after[..last], n, kind, variant);
      TmpIsApart(after[last].key, after[last].key, kind, variant);
    } else {
      assert after == before;
    }
  }

  /** A commit adds the file of its key to those that are listed. */
  lemma CommitFiles(before: seq<Event>, after: seq<Event>, key: Key, seed: seq<Byte>, payload: seq<Byte>, n: string)
    requires Committed(before, after, key, seed, payload) && Legal(after) && Listed(n, key.kind, key.variant)
    ensures n in Replay(after) <==> n in Replay(before) || n == Name(key)
  {
    var last := |after| - 1;
    QuietFiles(before, after[..last], n, key.kind, key.variant);
    TmpIsApart(key, key, key.kind, key.variant);
    assert Permitted(Replay(after[..last]), after[last]);
    hide Name, TmpName, Listed, Pack, Legal, Quiet;
  }

  /** Prunes after a commit. The newest files stay, so the saved one does if it is the newest. */
  method PruneAfterCommit(dir: Directory, key: Key, keep: nat, stamp: string -> Option<int>, ghost before: seq<Event>,
                          ghost seed: seq<Byte>, ghost payload: seq<Byte>)
    requires dir.Valid() && keep > 0 && Committed(before, dir.log, key, seed, payload)
    modifies dir
    ensures dir.Valid() && SaveOutcome(before, dir.log, key, seed, payload, true)
    ensures KeptNewest(Replay(before), dir.files, key, keep, stamp, dir.NeverFails())
    ensures IsNewest(Replay(before), key, stamp) ==> Name(key) in dir.files
  {
    hide SaveOutcome, Committed, OnlyForgets, Quiet, NewestFirst, Distinct, Listed, Replay, Legal, Name, Directory.NeverFails;
    ghost var mid, files := dir.log, dir.files;
    var newest := Prune(dir, key.kind, key.variant, keep, stamp);
    PrunedOutcome(before, mid, dir.log, key, seed, payload);
    forall n | Listed(n, key.kind, key.variant)
      ensures n in files <==> n in Replay(before) || n == Name(key)
    {
      CommitFiles(before, mid, key, seed, payload, n);
    }
    ListedIff(key, key.kind, key.variant);
    assert ListsAll(newest, Replay(before), key, stamp);
    if IsNewest(Replay(before), key, stamp) {
      NewestIsFirst(newest, Replay(before), key, stamp);
    }
  }

  /** A file newer than all others is first in the list, if it is in it. */
  lemma NewestIsFirst(newest: seq<string>, before: Disk, key: Key, stamp: string -> Option<int>)
    requires NewestFirst(newest, stamp) && Distinct(newest) && ListsAll(newest, before, key, stamp) && IsNewest(before, key, stamp)
    ensures forall i :: 0 <= i < |newest| && newest[i] == Name(key) ==> i == 0
  {
    hide Name, Listed;
    forall i | 0 < i < |newest|
      ensures newest[i] != Name(key)
    {
      assert newest[0] in newest && newest[i] in newest && newest[0] != newest[i];
    }
  }

  /** A file that is present is read back as it was last saved. */
  lemma SavedIsRead(log: seq<Event>, key: Key, seed: seq<Byte>, payload: seq<Byte>)
    requires Legal(log) && Name(key) in Replay(log) && Last(log, key) == Some(Commit(seed, payload))
    ensures Present(log, key) && Read(Replay(log), key, seed) == Some(payload)
  {
    LegalKeeps(log, key);
    ReadFindsLastCommit(log, key, seed);
    hide Legal, Replay, Last, Present, Read, Name, Pack;
  }

  /** Saves a light cache and prunes. If it is the newest it can then be loaded, and the newest four stay. */
  method SaveLight(dir: Directory, key: Key, seed: seq<Byte>, data: seq<Byte>, stamp: string -> Option<int>) returns (ok: bool)
    requires dir.Valid() && key.kind == LightFile && |data| < 0x1_0000_0000_0000_0000
    modifies dir
    ensures dir.Valid() && SaveOutcome(old(dir.log), dir.log, key, seed, data, ok)
    ensures dir.NeverFails() ==> ok
    ensures ok ==> KeptNewest(old(dir.files), dir.files, key, 4, stamp, dir.NeverFails())
    ensures ok && IsNewest(old(dir.files), key, stamp) ==>
              Present(dir.log, key) && Read(dir.files, key, seed) == Some(data)
  {
    hide Replay, SaveOutcome, Committed, Quiet, KeptNewest, IsNewest, Directory.NeverFails, Last, Present, Read, Legal, Name;
    ghost var before := dir.log;
    ok := WriteWhole(dir, key, seed, data);
    if !ok {
      QuietOutcome(before, dir.log, key, seed, data);
      return;
    }
    PruneAfterCommit(dir, key, KEEP_LIGHT, stamp, before, seed, data);
    LastOfOutcome(before, dir.log, key, seed, data);
    if IsNewest(Replay(before), key, stamp) {
      SavedIsRead(dir.log, key, seed, data);
    }
  }

  lemma LastOfOutcome(before: seq<Event>, after: seq<Event>, key: Key, seed: seq<Byte>, payload: seq<Byte>)
    requires SaveOutcome(before, after, key, seed, payload, true)
    ensures Last(after, key) == Some(Commit(seed, payload))
  {
    hide Last, Present;
  }

  lemma CommittedFrom(before: seq<Event>, mid: seq<Event>, after: seq<Event>, k: Key, seed: seq<Byte>, payload: seq<Byte>)
    requires Quiet(before, mid) && Committed(mid, after, k, seed, payload)
    ensures Committed(before, after, k, seed, payload)
  {
  }

  /** Reads the whole file; any failed call, short file or unexpected header is a miss. */
  method LoadLight(dir: Directory, key: Key, seed: seq<Byte>) returns (data: Option<seq<Byte>>)
    requires dir.Valid() && key.kind == LightFile
    modifies dir`calls
    ensures data.Some? ==> data == Read(dir.files, key, seed)
    ensures dir.NeverFails() ==> data == Read(dir.files, key, seed)
  {
    hide Replay, Name, CheckHeader;
    var n := dir.Call();
    if n != 0 || Name(key) !in dir.files {
      return None;
    }
    var raw := dir.files[Name(key)];
    n := dir.Call();
    if n != 0 || |raw| < HEADER_SIZE {
      return None;
    }
    var len := CheckHeader(raw[..HEADER_SIZE], key, seed);
    if len.None? {
      return None;
    }
    n := dir.Call();
    if n != 0 || |raw| < HEADER_SIZE + len.value {
      return None;
    }
    return Some(raw[HEADER_SIZE..HEADER_SIZE + len.value]);
  }

  // ---- pruning ----

  /** Newest first: no later entry is newer. */
  ghost predicate NewestFirst(names: seq<string>, stamp: string -> Option<int>) {
    && (forall i :: 0 <= i < |names| ==> stamp(names[i]).Some?)
    && forall i, j :: 0 <= i < j < |names| ==> stamp(names[i]).value >= stamp(names[j]).value
  }

  ghost predicate Distinct(names: seq<string>) { forall i, j :: 0 <= i < j < |names| ==> names[i] != names[j] }

  /** The place of a name among names sorted newest first. */
  method Insert(names: seq<string>, name: string, stamp: string -> Option<int>) returns (sorted: seq<string>)
    requires NewestFirst(names, stamp) && Distinct(names) && name !in names && stamp(name).Some?
    ensures NewestFirst(sorted, stamp) && Distinct(sorted)
    ensures forall n :: n in sorted <==> n == name || n in names
  {
    var i := 0;
    while i < |names| && stamp(names[i]).value >= stamp(name).value
      invariant 0 <= i <= |names|
      invariant forall j :: 0 <= j < i ==> stamp(names[j]).value >= stamp(name).value
    {
      i := i + 1;
    }
    sorted := names[..i] + [name] + names[i..];
  }

  /** Lists the files of a kind and variant, in any order, and sorts them newest first; a file whose
      time cannot be read is skipped. */
  method ListNewest(dir: Directory, kind: Kind, variant: Hash.Variant, stamp: string -> Option<int>) returns (names: seq<string>)
    ensures NewestFirst(names, stamp) && Distinct(names)
    ensures forall n :: n in names <==> n in dir.files && Listed(n, kind, variant) && stamp(n).Some?
  {
    hide Listed, NewestFirst, Distinct;
    names := [];
    assert NewestFirst([], stamp) && Distinct([]) by { NothingSorted(stamp); }
    var unseen := dir.files.Keys;
    while unseen != {}
      invariant unseen <= dir.files.Keys && NewestFirst(names, stamp) && Distinct(names)
      invariant forall n :: n in names <==> n in dir.files && n !in unseen && Listed(n, kind, variant) && stamp(n).Some?
    {
      var name :| name in unseen;
      if Listed(name, kind, variant) && stamp(name).Some? {
        names := Insert(names, name, stamp);
      }
      unseen := unseen - {name};
    }
  }

  lemma NothingSorted(stamp: string -> Option<int>)
    ensures NewestFirst([], stamp) && Distinct([])
  {
  }

  /** Removes all but the newest `keep` files of a kind and variant; a failed removal is ignored.
      Nothing else is touched. */
  method Prune(dir: Directory, kind: Kind, variant: Hash.Variant, keep: nat, stamp: string -> Option<int>)
    returns (newest: seq<string>)
    requires dir.Valid()
    modifies dir
    ensures dir.Valid() && OnlyForgets(old(dir.log), dir.log, kind, variant)
    ensures NewestFirst(newest, stamp) && Distinct(newest)
    ensures forall n :: n in newest <==> n in old(dir.files) && Listed(n, kind, variant) && stamp(n).Some?
    ensures forall n :: n in dir.files ==> n in old(dir.files) && dir.files[n] == old(dir.files)[n]
    ensures forall n :: n in old(dir.files) && n !in dir.files ==> keep < |newest| && n in newest[keep..]
    ensures forall i :: 0 <= i < keep && i < |newest| ==> newest[i] in dir.files
    ensures dir.NeverFails() ==> forall i :: keep <= i < |newest| ==> newest[i] !in dir.files
  {
    hide Replay, Listed, NewestFirst, Distinct;
    var n := dir.Call();
    newest := ListNewest(dir, kind, variant, stamp);
    if n == 0 && keep < |newest| {
      for i := keep to |newest|
        invariant dir.Valid() && OnlyForgets(old(dir.log), dir.log, kind, variant)
        invariant forall n :: n in dir.files ==> n in old(dir.files) && dir.files[n] == old(dir.files)[n]
        invariant forall n :: n in old(dir.files) && n !in dir.files ==> n in newest[keep..]
        invariant dir.NeverFails() ==> forall j :: keep <= j < i ==> newest[j] !in dir.files
      {
        assert newest[i] in newest && newest[i] in newest[keep..];
        PruneOne(dir, newest[i], kind, variant);
      }
      NotLater(newest, keep);
    }
  }

  lemma NotLater(names: seq<string>, keep: nat)
    requires Distinct(names) && keep <= |names|
    ensures forall i :: 0 <= i < keep ==> names[i] in names && names[i] !in names[keep..]
  {
  }

  method PruneOne(dir: Directory, name: string, ghost kind: Kind, ghost variant: Hash.Variant)
    requires dir.Valid() && Listed(name, kind, variant)
    modifies dir
    ensures dir.Valid()
    ensures (dir.log == old(dir.log) + [Forget(name)] && dir.files == old(dir.files) - {name})
            || (dir.log == old(dir.log) && dir.files == old(dir.files) && exists t :: dir.luck(t) != 0)
  {
    hide Replay, Listed;
    var n := dir.Call();
    if n == 0 {
      dir.RemoveFile(name, kind, variant);
    }
  }
}
