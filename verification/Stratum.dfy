/** The pool client: requests and their answers, the extranonce, and the current job. */
module Stratum {
  import opened Options
  import opened Bits
  import opened Words
  import opened Nonces

  // ---- the extranonce ----

  function HexDigit(c: char): Option<nat> {
    if '0' <= c <= '9' then Some(c as int - '0' as int)
    else if 'a' <= c <= 'f' then Some(c as int - 'a' as int + 10)
    else if 'A' <= c <= 'F' then Some(c as int - 'A' as int + 10)
    else None
  }

  function HexValue(s: string): Option<nat> {
    if s == "" then Some(0)
    else
      var hi :- HexValue(s[..|s| - 1]);
      var lo :- HexDigit(s[|s| - 1]);
      Some(16 * hi + lo)
  }

  /** `from_str_radix(16)`: a sign is allowed, no digits or more than 64 bits are errors. */
  function ParseHex(s: string): Option<U64> {
    var digits := if |s| > 0 && s[0] == '+' then s[1..] else s;
    if digits == "" then None
    else
      var v :- HexValue(digits);
      if v < 0x1_0000_0000_0000_0000 then Some(v) else None
  }

  /** `trim_start_matches("0x")`: every leading one. */
  function Trim0x(s: string): string {
    if |s| >= 2 && s[0] == '0' && s[1] == 'x' then Trim0x(s[2..]) else s
  }

  lemma {:induction false} HexValueFits(s: string)
    requires HexValue(s).Some?
    ensures HexValue(s).value < Pow2(4 * |s|)
  {
    if s != "" {
      HexValueFits(s[..|s| - 1]);
      FourMore(4 * (|s| - 1));
    }
  }

  lemma FourMore(n: nat)
    ensures Pow2(n + 4) == 16 * Pow2(n)
  {
    assert Pow2(n + 4) == 2 * Pow2(n + 3) && Pow2(n + 3) == 2 * Pow2(n + 2);
    assert Pow2(n + 2) == 2 * Pow2(n + 1) && Pow2(n + 1) == 2 * Pow2(n);
  }

  /** Counting four bits a character, an extranonce always fits its own bits. */
  lemma ExtranonceFits(s: string)
    requires ParseHex(s).Some?
    ensures ParseHex(s).value < Pow2(4 * |s|)
  {
    hide Pow2, HexValue;
    var n := 4 * |s|;
    if s[0] == '+' {
      HexValueFits(s[1..]);
      LargerPower(ParseHex(s).value, n - 4, n);
    } else {
      HexValueFits(s);
    }
  }

  lemma LargerPower(v: nat, m: nat, n: nat)
    requires v < Pow2(m) && m <= n
    ensures v < Pow2(n)
  {
    Pow2Mono(m, n);
  }

  /** The digits are the sixteen in either case, and nothing else is one. */
  lemma HexDigits(c: char, v: nat)
    requires v < 16
    ensures HexDigit(c).Some? <==> c in "0123456789abcdefABCDEF"
    ensures HexDigit("0123456789abcdef"[v]) == Some(v) == HexDigit("0123456789ABCDEF"[v])
  {
  }

  function Digit(v: nat): char
    requires v < 16
  {
    "0123456789abcdef"[v]
  }

  /** `v` written in `n` hexadecimal digits. */
  function HexOf(v: nat, n: nat): (s: string)
    ensures |s| == n
  {
    if n == 0 then "" else HexOf(v / 16, n - 1) + [Digit(v % 16)]
  }

  lemma {:induction false} HexOfRead(v: nat, n: nat)
    requires v < Pow2(4 * n)
    ensures HexValue(HexOf(v, n)) == Some(v)
  {
    if n > 0 {
      hide Pow2, HexDigit, Digit, HexValue;
      Sixteenth(v, n);
      HexOfRead(v / 16, n - 1);
      DigitRead(v % 16);
      HexValueMore(HexOf(v / 16, n - 1), Digit(v % 16), v / 16, v % 16);
    }
  }

  lemma Sixteenth(v: nat, n: nat)
    requires n > 0 && v < Pow2(4 * n)
    ensures v / 16 < Pow2(4 * (n - 1)) && v == 16 * (v / 16) + v % 16
  {
    FourMore(4 * (n - 1));
    hide Pow2;
  }

  lemma DigitRead(v: nat)
    requires v < 16
    ensures HexDigit(Digit(v)) == Some(v)
  {
    HexDigits('0', v);
    hide HexDigit;
  }

  lemma HexValueMore(s: string, c: char, hi: nat, lo: nat)
    requires HexValue(s) == Some(hi) && HexDigit(c) == Some(lo)
    ensures HexValue(s + [c]) == Some(16 * hi + lo)
  {
    assert (s + [c])[..|s|] == s;
  }

  lemma {:induction false} HexOfDigits(v: nat, n: nat)
    ensures forall i :: 0 <= i < n ==> HexDigit(HexOf(v, n)[i]).Some?
  {
    hide HexDigit, Digit;
    if n > 0 {
      HexOfDigits(v / 16, n - 1);
      DigitRead(v % 16);
    }
  }

  /** A prefix announced as `n` digits, with `0x` before it or not, is the region of that prefix with four
      bits for every digit. */
  lemma AnnouncedRegion(v: U64, n: nat, text: string)
    requires 0 < n <= 16 && v < Pow2(4 * n)
    requires text == HexOf(v, n) || text == "0x" + HexOf(v, n)
    ensures Readable(Text(text)) && RegionOf(text) == Region(v, 4 * n) && RegionOf(text).Valid()
  {
    hide Pow2, HexValue, HexOf, ParseHex, Trim0x, HexDigit;
    HexOfRead(v, n);
    HexOfDigits(v, n);
    Trimmed(HexOf(v, n));
    ReadDigits(HexOf(v, n), v);
  }

  lemma ReadDigits(s: string, v: U64)
    requires |s| > 0 && HexDigit(s[0]).Some? && HexValue(s) == Some(v)
    ensures ParseHex(s) == Some(v)
  {
    hide HexValue;
  }

  lemma Trimmed(s: string)
    requires forall i :: 0 <= i < |s| ==> HexDigit(s[i]).Some?
    ensures Trim0x(s) == s && Trim0x("0x" + s) == s
  {
    assert |s| > 1 ==> s[1] != 'x';
    hide HexDigit;
    assert ("0x" + s)[2..] == s;
  }

  // ---- sessions ----

  /** What bears on the extranonce: connecting, an extranonce text from a subscribe answer or a
      `mining.set_extranonce`, and a notify. */
  datatype Event = Connected | Text(text: string) | Notified

  predicate Readable(e: Event) { e.Text? && ParseHex(Trim0x(e.text)).Some? }

  /** The region a readable text describes. */
  function RegionOf(text: string): Region
    requires ParseHex(Trim0x(text)).Some?
  {
    Region(ParseHex(Trim0x(text)).value, 4 * |Trim0x(text)|)
  }

  function Sessions(log: seq<Event>): nat {
    if log == [] then 0 else Sessions(log[..|log| - 1]) + (if log[|log| - 1].Connected? then 1 else 0)
  }

  /** A region and the session in which it was received. */
  datatype Received = Received(region: Region, session: nat)

  /** The region in force: connecting does not reset it. */
  function InForce(log: seq<Event>): Received {
    if log == [] then Received(Region(0, 0), 0)
    else
      var e := log[|log| - 1];
      if Readable(e) then Received(RegionOf(e.text), Sessions(log)) else InForce(log[..|log| - 1])
  }

  /** The region of the current job: the one in force at its notify. Connecting drops the job. */
  function JobRegion(log: seq<Event>): Option<Received> {
    if log == [] then None
    else
      match log[|log| - 1]
      case Connected => None
      case Notified => Some(InForce(log[..|log| - 1]))
      case Text(_) => JobRegion(log[..|log| - 1])
  }

  /** Event `n` announced the current job: since then no connection and no other notify. */
  ghost predicate Announces(log: seq<Event>, n: nat) {
    n < |log| && log[n].Notified? && forall i :: n < i < |log| ==> log[i].Text?
  }

  /** Before event `n`, in its session, a readable extranonce came. */
  ghost predicate ReceivedBefore(log: seq<Event>, n: nat)
    requires n <= |log|
  {
    exists t :: 0 <= t < n && Readable(log[t]) && NoConnection(log, t, n)
  }

  ghost predicate NoConnection(log: seq<Event>, t: nat, n: nat)
    requires n <= |log|
  {
    forall i :: t < i < n ==> !log[i].Connected?
  }

  lemma {:induction false} SessionsGrow(log: seq<Event>, n: nat)
    requires n <= |log|
    ensures Sessions(log[..n]) <= Sessions(log)
    ensures Sessions(log[..n]) == Sessions(log) <==> forall i :: n <= i < |log| ==> !log[i].Connected?
  {
    if n == |log| {
      assert log[..n] == log;
    } else {
      var last := |log| - 1;
      SessionsGrow(log[..last], n);
      assert log[..last][..n] == log[..n];
      assert forall i :: n <= i < last ==> log[..last][i] == log[i];
    }
  }

  lemma ReceivedNext(log: seq<Event>, e: Event)
    ensures ReceivedBefore(log + [e], |log| + 1) <==> Readable(e) || (!e.Connected? && ReceivedBefore(log, |log|))
  {
    hide Readable;
    var n, next := |log|, log + [e];
    assert forall i :: 0 <= i < n ==> log[i] == next[i];
    assert next[n] == e;
    if ReceivedBefore(next, n + 1) && !Readable(e) {
      var t :| 0 <= t < n + 1 && Readable(next[t]) && NoConnection(next, t, n + 1);
      assert log[t] == next[t] && NoConnection(log, t, n);
      assert !next[n].Connected?;
    }
    if ReceivedBefore(log, n) && !e.Connected? {
      var t :| 0 <= t < n && Readable(log[t]) && NoConnection(log, t, n);
      assert next[t] == log[t] && NoConnection(next, t, n + 1);
    }
    if Readable(e) {
      assert next[n] == e && NoConnection(next, n, n + 1);
    }
  }

  lemma {:induction false} InForceSession(log: seq<Event>)
    ensures InForce(log).session <= Sessions(log)
    ensures Sessions(log) > 0 ==> (InForce(log).session == Sessions(log) <==> ReceivedBefore(log, |log|))
  {
    hide RegionOf, Trim0x, ParseHex, ReceivedBefore;
    if log != [] {
      var last := |log| - 1;
      assert log == log[..last] + [log[last]];
      InForceSession(log[..last]);
      ReceivedNext(log[..last], log[last]);
    }
  }

  lemma {:induction false} JobRegionIs(log: seq<Event>, n: nat)
    requires Announces(log, n)
    ensures JobRegion(log) == Some(InForce(log[..n])) && Sessions(log[..n]) == Sessions(log)
  {
    hide InForce;
    var last := |log| - 1;
    if n < last {
      JobRegionIs(log[..last], n);
      assert log[..last][..n] == log[..n];
    }
  }

  lemma {:induction false} JobIffAnnounced(log: seq<Event>)
    ensures JobRegion(log).Some? <==> exists n: nat :: Announces(log, n)
  {
    hide InForce;
    if log != [] {
      var last := |log| - 1;
      JobIffAnnounced(log[..last]);
      if exists n: nat :: Announces(log[..last], n) && log[last].Text? {
        var n: nat :| Announces(log[..last], n) && log[last].Text?;
        assert Announces(log, n);
      }
      if log[last].Notified? {
        assert Announces(log, last);
      }
      if exists n: nat :: Announces(log, n) {
        var n: nat :| Announces(log, n);
        if n < last {
          assert Announces(log[..last], n);
        }
      }
    }
  }

  /** After a connection, the current job carries an extranonce of this session exactly when a readable
      extranonce came in this session before the job's notify. */
  lemma JobOfSessionIff(log: seq<Event>, n: nat)
    requires Announces(log, n) && Sessions(log) > 0
    ensures JobRegion(log).Some?
    ensures JobRegion(log).value.session == Sessions(log) <==> ReceivedBefore(log, n)
  {
    JobRegionIs(log, n);
    InForceSession(log[..n]);
    ReceivedPrefix(log, n);
    hide InForce, JobRegion, Sessions, ReceivedBefore;
  }

  lemma ReceivedPrefix(log: seq<Event>, n: nat)
    requires n <= |log|
    ensures ReceivedBefore(log, n) <==> ReceivedBefore(log[..n], n)
  {
    hide Readable;
    var before := log[..n];
    assert forall i :: 0 <= i < n ==> before[i] == log[i];
    if ReceivedBefore(log, n) {
      var t :| 0 <= t < n && Readable(log[t]) && NoConnection(log, t, n);
      assert before[t] == log[t] && NoConnection(before, t, n);
    }
    if ReceivedBefore(before, n) {
      var t :| 0 <= t < n && Readable(before[t]) && NoConnection(before, t, n);
      assert log[t] == before[t] && NoConnection(log, t, n);
    }
  }

  /** A reconnection whose notify comes first: the new job still has the prefix of the old session. */
  lemma StaleExtranonce()
    ensures var log := [Connected, Text("a1"), Notified, Connected, Notified];
            JobRegion(log) == Some(Received(Region(0xA1, 8), 1)) && Sessions(log) == 2
  {
    var text := Text("a1");
    var l1: seq<Event> := [Connected];
    var l2 := l1 + [text];
    var l3 := l2 + [Notified];
    var l4 := l3 + [Connected];
    var l5 := l4 + [Notified];
    assert l1[..0] == [] && l2[..1] == l1 && l3[..2] == l2 && l4[..3] == l3 && l5[..4] == l4;
    A1();
    assert Sessions(l1) == 1 && Sessions(l2) == 1 && Sessions(l3) == 1 && Sessions(l4) == 2 && Sessions(l5) == 2;
    assert InForce(l2) == Received(Region(0xA1, 8), 1) && InForce(l3) == InForce(l2) && InForce(l4) == InForce(l2);
    assert l5 == [Connected, text, Notified, Connected, Notified];
  }

  lemma A1()
    ensures Trim0x("a1") == "a1" && ParseHex("a1") == Some(0xA1)
  {
    assert "a1"[..1] == "a" && "a"[..0] == "";
    assert HexValue("") == Some(0) && HexValue("a") == Some(10) && HexValue("a1") == Some(161);
  }

  // ---- the client ----

  datatype Request = Subscribe | Authorize | Submit | ReportHashrate

  datatype Job = Job(id: string, header: seq<nat>, seed: seq<nat>, target: seq<nat>, height: nat, region: Region)

  /** What became of a written line. */
  datatype Delivery = NoSocket | Written | Broken

  /** The share submissions not yet answered. */
  function Open(pending: map<nat, Request>): set<nat> { set id | id in pending && pending[id] == Submit }

  class Client {
    var currentJob: Option<Job>
    var target: seq<nat>
    var extranonce: U64
    var extranonceBits: nat
    var running: bool
    var idCtr: nat
    var jobGen: nat
    var pending: map<nat, Request>
    var accepted: nat
    var rejected: nat
    /** Shares sent so far, and the history of connections, extranonces and notifies. */
    ghost var submitted: nat
    ghost var log: seq<Event>

    /** The fields are what the history says. */
    ghost predicate Follows()
      reads this
    {
      && Region(extranonce, extranonceBits) == InForce(log).region && extranonce < Pow2(extranonceBits)
      && (currentJob.Some? <==> JobRegion(log).Some?)
      && (currentJob.Some? ==> currentJob.value.region == JobRegion(log).value.region)
    }

    /** No share is lost or counted twice. */
    ghost predicate Balanced()
      reads this
    {
      && (forall id :: id in pending ==> 0 < id <= idCtr)
      && submitted == accepted + rejected + |Open(pending)|
    }

    ghost predicate Valid()
      reads this
    {
      Follows() && Balanced()
    }

    constructor (target: seq<nat>)
      ensures Valid() && submitted == 0 && log == [] && this.target == target
    {
      currentJob, this.target, extranonce, extranonceBits, running := None, target, 0, 0, false;
      idCtr, jobGen, pending, accepted, rejected := 0, 0, map[], 0, 0;
      submitted, log := 0, [];
    }

    /** Every request gets a new number and waits for its answer, even if it could not be written. */
    method Send(request: Request, delivery: Delivery) returns (id: Option<nat>)
      requires Valid()
      modifies this`idCtr, this`pending, this`running, this`submitted
      ensures Valid()
      ensures idCtr == old(idCtr) + 1 && idCtr !in old(pending) && pending == old(pending)[idCtr := request]
      ensures submitted == old(submitted) + if request == Submit then 1 else 0
      ensures id == if delivery == Written then Some(idCtr) else None
      ensures running == (old(running) && delivery != Broken)
    {
      hide Pow2, InForce, JobRegion;
      idCtr := idCtr + 1;
      OpenAdds(pending, idCtr, request);
      hide Open;
      pending := pending[idCtr := request];
      if request == Submit {
        submitted := submitted + 1;
      }
      if delivery == Broken {
        running := false;
      }
      id := if delivery == Written then Some(idCtr) else None;
    }

    /** Only an answer to a request that waits has an effect, and only once. */
    method OnResponse(id: nat, isTrue: bool, extranonceHex: Option<string>)
      requires Valid()
      modifies this`pending, this`accepted, this`rejected, this`extranonce, this`extranonceBits, this`log
      ensures Valid()
      ensures pending == old(pending) - {id}
      ensures accepted == old(accepted) + if id in old(pending) && old(pending)[id] == Submit && isTrue then 1 else 0
      ensures rejected == old(rejected) + if id in old(pending) && old(pending)[id] == Submit && !isTrue then 1 else 0
      ensures log == if id in old(pending) && old(pending)[id] == Subscribe && extranonceHex.Some? then
                       old(log) + [Text(extranonceHex.value)]
                     else old(log)
    {
      hide Pow2, InForce, JobRegion;
      if id !in pending {
        assert pending - {id} == pending;
        return;
      }
      var request := pending[id];
      OpenRemoves(pending, id);
      hide Open;
      pending := pending - {id};
      match request
      case Subscribe =>
        if extranonceHex.Some? {
          SetExtranonce(extranonceHex.value);
        }
      case Submit =>
        if isTrue {
          accepted := accepted + 1;
        } else {
          rejected := rejected + 1;
        }
      case _ =>
    }

    /** A text that is no hexadecimal number changes nothing. */
    method SetExtranonce(text: string)
      requires Follows()
      modifies this`extranonce, this`extranonceBits, this`log
      ensures Follows() && log == old(log) + [Text(text)]
    {
      ghost var before := log;
      log := log + [Text(text)];
      TextArrives(before, text);
      hide Pow2, HexValue, InForce, JobRegion;
      var hex := Trim0x(text);
      if hex == "" {
        return;
      }
      var en := ParseHex(hex);
      if en.Some? {
        ExtranonceFits(hex);
        extranonce, extranonceBits := en.value, 4 * |hex|;
      }
    }

    /** A new job: it carries the extranonce in force. */
    method OnNotify(id: string, header: seq<nat>, seed: seq<nat>, jobTarget: Option<seq<nat>>, height: nat)
      requires Valid()
      modifies this`currentJob, this`jobGen, this`log
      ensures Valid() && jobGen == old(jobGen) + 1 && log == old(log) + [Notified]
      ensures currentJob == Some(Job(id, header, seed, jobTarget.GetOr(target), height, Region(extranonce, extranonceBits)))
    {
      ghost var before := log;
      log := log + [Notified];
      NotifyArrives(before);
      hide Pow2, InForce, JobRegion, Open;
      currentJob := Some(Job(id, header, seed, jobTarget.GetOr(target), height, Region(extranonce, extranonceBits)));
      jobGen := jobGen + 1;
    }

    /** Connecting drops the job of the previous session, but not its extranonce; then it subscribes and
        authorizes. */
    method Connect(first: Delivery, second: Delivery)
      requires Valid()
      modifies this`currentJob, this`running, this`idCtr, this`pending, this`submitted, this`log
      ensures Valid() && currentJob == None && submitted == old(submitted) && log == old(log) + [Connected]
      ensures pending == old(pending)[old(idCtr) + 1 := Subscribe][old(idCtr) + 2 := Authorize]
    {
      ghost var before := log;
      log := log + [Connected];
      ConnectionMade(before);
      hide Pow2, InForce, JobRegion, Open;
      currentJob := None;
      running := true;
      var a := Send(Subscribe, first);
      var b := Send(Authorize, second);
    }
  }

  lemma TextArrives(log: seq<Event>, text: string)
    ensures JobRegion(log + [Text(text)]) == JobRegion(log)
    ensures InForce(log + [Text(text)]).region
            == if ParseHex(Trim0x(text)).Some? then RegionOf(text) else InForce(log).region
  {
    hide ParseHex, Trim0x;
    assert (log + [Text(text)])[..|log|] == log;
  }

  lemma NotifyArrives(log: seq<Event>)
    ensures JobRegion(log + [Notified]) == Some(InForce(log)) && InForce(log + [Notified]) == InForce(log)
  {
    assert (log + [Notified])[..|log|] == log;
  }

  lemma ConnectionMade(log: seq<Event>)
    ensures JobRegion(log + [Connected]) == None && InForce(log + [Connected]) == InForce(log)
  {
    assert (log + [Connected])[..|log|] == log;
  }

  lemma OpenAdds(pending: map<nat, Request>, id: nat, request: Request)
    requires id !in pending
    ensures |Open(pending[id := request])| == |Open(pending)| + if request == Submit then 1 else 0
  {
    if request == Submit {
      assert Open(pending[id := request]) == Open(pending) + {id};
    } else {
      assert Open(pending[id := request]) == Open(pending);
    }
  }

  lemma OpenRemoves(pending: map<nat, Request>, id: nat)
    requires id in pending
    ensures |Open(pending - {id})| == |Open(pending)| - if pending[id] == Submit then 1 else 0
  {
    if pending[id] == Submit {
      assert Open(pending - {id}) == Open(pending) - {id};
    } else {
      assert Open(pending - {id}) == Open(pending);
    }
  }
}
