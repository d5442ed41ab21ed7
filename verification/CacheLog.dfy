/** Everything that can happen to a cache directory, step by step, and what a load then finds. */
module CacheLog {
  import opened Words
  import opened Options
  import opened CacheFiles

  /** File contents by name. */
  type Disk = map<string, seq<Byte>>

  /** One change of the directory. A process may die between any two of them. */
  datatype Event =
    | Open(key: Key)
    | Arrive(key: Key, more: seq<Byte>)
    | Rename(key: Key, seed: seq<Byte>, payload: seq<Byte>)
    | DropTmp(key: Key)
    | Forget(name: string)

  /** The whole file for a payload. */
  function Pack(k: Key, seed: seq<Byte>, payload: seq<Byte>): seq<Byte>
    requires |payload| < 0x1_0000_0000_0000_0000
  {
    PackHeader(k, |payload|, seed) + payload
  }

  function Apply(d: Disk, e: Event): Disk {
    match e
    case Open(k) => d[TmpName(k) := []]
    case Arrive(k, more) => if TmpName(k) in d then d[TmpName(k) := d[TmpName(k)] + more] else d
    case Rename(k, _, _) => if TmpName(k) in d then (d - {TmpName(k)})[Name(k) := d[TmpName(k)]] else d
    case DropTmp(k) => d - {TmpName(k)}
    case Forget(name) => d - {name}
  }

  /** Writers rename only complete files; pruning removes only names it lists. */
  ghost predicate Permitted(d: Disk, e: Event) {
    match e
    case Rename(k, seed, payload) =>
      TmpName(k) in d && |payload| < 0x1_0000_0000_0000_0000 && d[TmpName(k)] == Pack(k, seed, payload)
    case Forget(name) => exists kind, variant :: Listed(name, kind, variant)
    case _ => true
  }

  /** The directory after a history that began with it empty. */
  function Replay(log: seq<Event>): Disk {
    if log == [] then map[] else Apply(Replay(log[..|log| - 1]), log[|log| - 1])
  }

  ghost predicate Legal(log: seq<Event>) {
    forall i :: 0 <= i < |log| ==> Permitted(Replay(log[..i]), log[i])
  }

  datatype Commit = Commit(seed: seq<Byte>, payload: seq<Byte>)

  /** The last save that was committed for a key. */
  function Last(log: seq<Event>, k: Key): Option<Commit> {
    if log == [] then None
    else
      var e := log[|log| - 1];
      if e.Rename? && e.key == k then Some(Commit(e.seed, e.payload)) else Last(log[..|log| - 1], k)
  }

  /** Committed, and not pruned since. */
  function Present(log: seq<Event>, k: Key): bool {
    if log == [] then false
    else
      var e := log[|log| - 1];
      if e.Rename? && e.key == k then true
      else if e == Forget(Name(k)) then false
      else Present(log[..|log| - 1], k)
  }

  /** What a load of a key with a seed finds. */
  function Read(d: Disk, k: Key, seed: seq<Byte>): Option<seq<Byte>> {
    if Name(k) !in d then None
    else
      var raw := d[Name(k)];
      if |raw| < HEADER_SIZE then None
      else
        var len :- CheckHeader(raw[..HEADER_SIZE], k, seed);
        if |raw| < HEADER_SIZE + len then None else Some(raw[HEADER_SIZE..HEADER_SIZE + len])
  }

  // ---- what every history keeps ----

  /** The file of a key is there exactly while present, and is the whole of its last commit. */
  ghost predicate Kept(d: Disk, log: seq<Event>, k: Key) {
    && (Name(k) in d <==> Present(log, k))
    && (Present(log, k) ==>
          && Last(log, k).Some? && |Last(log, k).value.payload| < 0x1_0000_0000_0000_0000
          && d[Name(k)] == Pack(k, Last(log, k).value.seed, Last(log, k).value.payload))
  }

  lemma EventKeeps(d: Disk, log: seq<Event>, e: Event, k: Key)
    requires Kept(d, log, k) && Permitted(d, e)
    ensures Kept(Apply(d, e), log + [e], k)
  {
    HistoryAfter(log, e, k);
    FileAfter(d, e, k);
    hide Name, TmpName, Pack, Listed, Apply, Last, Present;
  }

  /** What an event adds to the history of a key. */
  lemma HistoryAfter(log: seq<Event>, e: Event, k: Key)
    ensures Last(log + [e], k) == if e.Rename? && e.key == k then Some(Commit(e.seed, e.payload)) else Last(log, k)
    ensures Present(log + [e], k) == ((e.Rename? && e.key == k) || (e != Forget(Name(k)) && Present(log, k)))
  {
    hide Name;
    assert (log + [e])[..|log|] == log;
  }

  /** What an event does to the file of a key. */
  lemma FileAfter(d: Disk, e: Event, k: Key)
    requires Permitted(d, e)
    ensures Name(k) in Apply(d, e) <==> (e.Rename? && e.key == k) || (e != Forget(Name(k)) && Name(k) in d)
    ensures Name(k) in Apply(d, e) ==>
              Apply(d, e)[Name(k)] == if e.Rename? && e.key == k then Pack(k, e.seed, e.payload) else d[Name(k)]
  {
    hide Pack, Listed;
    if e.Rename? {
      RenameFile(d, e, k);
    } else if e.Forget? {
      hide Name, TmpName;
    } else {
      TmpOnly(d, e, k);
      hide Name, TmpName, Apply;
    }
  }

  lemma RenameFile(d: Disk, e: Event, k: Key)
    requires e.Rename? && Permitted(d, e)
    ensures Name(k) in Apply(d, e) <==> e.key == k || Name(k) in d
    ensures Name(k) in Apply(d, e) ==> Apply(d, e)[Name(k)] == if e.key == k then Pack(k, e.seed, e.payload) else d[Name(k)]
  {
    TmpIsApart(e.key, k, LightFile, Hash.Kawpow);
    if Name(e.key) == Name(k) {
      NameInjective(e.key, k);
    }
    hide Name, TmpName, Pack, Listed;
    var after := (d - {TmpName(e.key)})[Name(e.key) := d[TmpName(e.key)]];
    assert Apply(d, e) == after;
  }

  /** Events on a temporary file leave the others alone. */
  lemma TmpOnly(d: Disk, e: Event, k: Key)
    requires !e.Rename? && !e.Forget?
    ensures Name(k) in Apply(d, e) <==> Name(k) in d
    ensures Name(k) in d ==> Apply(d, e)[Name(k)] == d[Name(k)]
  {
    TmpIsApart(e.key, k, LightFile, Hash.Kawpow);
    hide Name, TmpName, Listed;
  }

  lemma {:induction false} LegalKeeps(log: seq<Event>, k: Key)
    requires Legal(log)
    ensures Kept(Replay(log), log, k)
  {
    hide Kept, Apply, Permitted;
    if log == [] {
      EmptyKept(k);
    } else {
      var last := |log| - 1;
      LegalPrefix(log, last);
      LegalKeeps(log[..last], k);
      EventKeeps(Replay(log[..last]), log[..last], log[last], k);
      assert log[..last] + [log[last]] == log;
    }
  }

  lemma EmptyKept(k: Key)
    ensures Kept(map[], [], k)
  {
  }

  /** A history cut short anywhere, as by a crash, is a history. */
  lemma LegalPrefix(log: seq<Event>, n: nat)
    requires Legal(log) && n <= |log|
    ensures Legal(log[..n])
  {
    hide Permitted, Replay;
    forall i | 0 <= i < n
      ensures Permitted(Replay(log[..n][..i]), log[..n][i])
    {
      assert log[..n][..i] == log[..i];
    }
  }

  /** After every history a load finds exactly the payload of the last committed save of that key, if
      it was saved with that seed and not pruned since; otherwise it finds nothing. */
  lemma ReadFindsLastCommit(log: seq<Event>, k: Key, seed: seq<Byte>)
    requires Legal(log)
    ensures Present(log, k) ==> Last(log, k).Some?
    ensures Read(Replay(log), k, seed)
            == if Present(log, k) && Seed32(Last(log, k).value.seed) == Seed32(seed) then Some(Last(log, k).value.payload) else None
  {
    LegalKeeps(log, k);
    hide PackHeader, CheckHeader, Seed32, Name, Replay, Last, Present, Pack;
    if Present(log, k) {
      var c := Last(log, k).value;
      ReadPacked(Replay(log), k, c.seed, c.payload, seed);
    }
  }

  /** A whole file is read back exactly with its own seed. */
  lemma ReadPacked(d: Disk, k: Key, own: seq<Byte>, payload: seq<Byte>, seed: seq<Byte>)
    requires Name(k) in d && |payload| < 0x1_0000_0000_0000_0000 && d[Name(k)] == Pack(k, own, payload)
    ensures Read(d, k, seed) == if Seed32(own) == Seed32(seed) then Some(payload) else None
  {
    HeaderTells(k, own, |payload|, k, seed);
    hide PackHeader, CheckHeader, Seed32, Name;
    var raw := d[Name(k)];
    assert raw[..HEADER_SIZE] == PackHeader(k, |payload|, own);
    assert raw[HEADER_SIZE..HEADER_SIZE + |payload|] == payload;
  }

  /** A save that dies before its rename leaves every load as it was. */
  lemma CutSave(log: seq<Event>, more: seq<Event>, n: nat, k: Key, seed: seq<Byte>)
    requires Legal(log + more) && n <= |more|
    requires forall e :: e in more[..n] ==> !e.Rename? && !e.Forget?
    ensures Read(Replay((log + more)[..|log| + n]), k, seed) == Read(Replay(log), k, seed)
  {
    hide Replay, Read, Name, Last, Present, Permitted, Seed32;
    var cut := (log + more)[..|log| + n];
    assert cut == log + more[..n] && log == (log + more)[..|log|];
    LegalPrefix(log + more, |log| + n);
    LegalPrefix(log + more, |log|);
    ReadFindsLastCommit(cut, k, seed);
    ReadFindsLastCommit(log, k, seed);
    QuietKeeps(log, more[..n], k);
  }

  lemma {:induction false} QuietKeeps(log: seq<Event>, more: seq<Event>, k: Key)
    requires forall e :: e in more ==> !e.Rename? && !e.Forget?
    ensures Last(log + more, k) == Last(log, k) && Present(log + more, k) == Present(log, k)
  {
    hide Name;
    if more == [] {
      assert log + more == log;
    } else {
      var last := |more| - 1;
      assert (log + more)[..|log| + last] == log + more[..last];
      QuietKeeps(log, more[..last], k);
    }
  }
}
