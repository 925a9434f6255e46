/** Backpressure between a TCP reader and a data channel: the reader loop, the
    capacity-1 drain channel, the low-water callback and teardown, interleaved. */
module Bridge {
  import opened Basics
  import opened Bytes

  const MaxChunk: nat := 16 * 1024
  const High: nat := 1024 * 1024
  const Low: nat := 256 * 1024

  type Chunk = c: seq<byte> | |c| <= MaxChunk

  /** The reader goroutine. `err` says the last read also returned an error. */
  datatype Reader =
    | Reading
    | Sending(chunk: Chunk, err: bool)
    | Checking(err: bool)
    | Waiting(err: bool)
    | ClosingDown
    | Stopped

  datatype Once = Unused | Running | Finished

  datatype State = State(
    reader: Reader,
    buffered: nat,
    drain: bool,         // a token is in the channel
    callbacks: nat,      // low-water callbacks fired but not yet run
    once: Once,
    done: bool,
    read: seq<byte>,     // history: bytes the reads returned
    passed: seq<Chunk>,  // history: chunks passed to Send, in order
    sentOk: nat)         // history: how many of those Send accepted

  datatype Event =
    | Read(chunk: Chunk, err: bool)
    | Send(ok: bool)
    | Check
    | WakeDrain
    | WakeDone
    | ReaderClose
    | Drain(n: nat)
    | RunCallback
    | StartTeardown
    | FinishTeardown

  function Initial(buffered: nat): State
  {
    State(Reading, buffered, false, 0, Unused, false, [], [], 0)
  }

  function AfterChunk(err: bool): Reader
  {
    if err then ClosingDown else Reading
  }

  /** Is the event possible now? */
  predicate Enabled(s: State, e: Event)
  {
    match e
    case Read(_, _) => s.reader.Reading?
    case Send(_) => s.reader.Sending?
    case Check => s.reader.Checking?
    case WakeDrain => s.reader.Waiting? && s.drain
    case WakeDone => s.reader.Waiting? && s.done
    case ReaderClose => s.reader.ClosingDown?
    case Drain(n) => 0 < n <= s.buffered
    case RunCallback => s.callbacks > 0
    case StartTeardown => s.once.Unused?
    case FinishTeardown => s.once.Running?
  }

  /** closeAll by some goroutine: only the first caller runs the body. */
  function Begin(o: Once): Once
  {
    if o.Unused? then Running else o
  }

  function Next(s: State, e: Event): State
  {
    if !Enabled(s, e) then s
    else
      match e
      case Read(c, err) =>
        s.(reader := if c != [] then Sending(c, err) else AfterChunk(err), read := s.read + c)
      case Send(ok) =>
        if ok then
          s.(reader := Checking(s.reader.err), buffered := s.buffered + |s.reader.chunk|,
             passed := s.passed + [s.reader.chunk], sentOk := s.sentOk + 1)
        else s.(reader := ClosingDown, passed := s.passed + [s.reader.chunk])
      case Check =>
        s.(reader := if s.buffered > High then Waiting(s.reader.err) else AfterChunk(s.reader.err))
      case WakeDrain => s.(reader := Checking(s.reader.err), drain := false)
      case WakeDone => s.(reader := Stopped)
      case ReaderClose => s.(reader := Stopped, once := Begin(s.once))
      case Drain(n) =>
        s.(buffered := s.buffered - n,
           callbacks := s.callbacks + (if s.buffered > Low && s.buffered - n <= Low then 1 else 0))
      case RunCallback => s.(callbacks := s.callbacks - 1, drain := true)
      case StartTeardown => s.(once := Running)
      case FinishTeardown => s.(once := Finished, done := true)
  }

  function Run(buffered: nat, events: seq<Event>): State
  {
    if events == [] then Initial(buffered) else Next(Run(buffered, events[..|events| - 1]), events[|events| - 1])
  }

  // ---------- invariants ----------

  /** Read but not yet passed to Send. */
  function InHand(r: Reader): seq<byte>
  {
    if r.Sending? then r.chunk else []
  }

  ghost predicate Inv(s: State)
  {
    // no lost wake-up
    && (s.reader.Waiting? && !s.drain && s.callbacks == 0 && !s.done ==> s.buffered > Low)
    // bounded buffer
    && s.buffered <= High + MaxChunk
    && (s.reader.Reading? || s.reader.Sending? ==> s.buffered <= High)
    // order
    && Flatten(s.passed) + InHand(s.reader) == s.read
    && (s.reader.Sending? ==> s.reader.chunk != [])
    && (forall i :: 0 <= i < |s.passed| ==> s.passed[i] != [])
    && |s.passed| - 1 <= s.sentOk <= |s.passed|
    && (s.sentOk < |s.passed| ==> s.reader.ClosingDown? || s.reader.Stopped?)
    // teardown
    && (s.done <==> s.once.Finished?)
  }

  lemma ReaderStepKeeps(s: State, e: Event)
    requires Inv(s) && (e.Read? || e.Send? || e.Check? || e.WakeDrain? || e.WakeDone? || e.ReaderClose?)
    ensures Inv(Next(s, e))
  {
    if Enabled(s, e) {
      var s' := Next(s, e);
      if e.Read? {
        assert Flatten(s.passed) + e.chunk == s.read + e.chunk;
      } else if e.Send? {
        FlattenSnoc(s.passed, s.reader.chunk);
      }
    }
  }

  lemma OtherStepKeeps(s: State, e: Event)
    requires Inv(s) && (e.Drain? || e.RunCallback? || e.StartTeardown? || e.FinishTeardown?)
    ensures Inv(Next(s, e))
  {
  }

  lemma {:induction false} EveryRunSafe(buffered: nat, events: seq<Event>)
    requires buffered <= High
    ensures Inv(Run(buffered, events))
  {
    if events != [] {
      var n := |events| - 1;
      EveryRunSafe(buffered, events[..n]);
      var s, e := Run(buffered, events[..n]), events[n];
      if e.Drain? || e.RunCallback? || e.StartTeardown? || e.FinishTeardown? {
        OtherStepKeeps(s, e);
      } else {
        ReaderStepKeeps(s, e);
      }
    }
  }

  /** Nothing that is already under way can still move the reader. */
  ghost predicate Blocked(s: State)
  {
    && s.reader.Waiting?
    && !Enabled(s, WakeDrain) && !Enabled(s, WakeDone)
    && !Enabled(s, RunCallback) && !Enabled(s, FinishTeardown)
  }

  /** In every interleaving the reader is blocked only while the buffer is above the
      low mark and no teardown has begun: no wake-up is ever lost. */
  lemma NoLostWakeup(buffered: nat, events: seq<Event>)
    requires buffered <= High && Blocked(Run(buffered, events))
    ensures Run(buffered, events).buffered > Low && Run(buffered, events).once.Unused?
  {
    EveryRunSafe(buffered, events);
  }

  function RunFrom(s: State, events: seq<Event>): State
    decreases |events|
  {
    if events == [] then s else RunFrom(Next(s, events[0]), events[1..])
  }

  /** Once the buffer has drained or teardown has begun, at most three steps of
      the bridge itself release the reader; after draining it also passes its check. */
  lemma WaitingReaderReleased(buffered: nat, events: seq<Event>) returns (release: seq<Event>)
    requires buffered <= High
    requires var s := Run(buffered, events); s.reader.Waiting? && (s.buffered <= Low || !s.once.Unused?)
    ensures |release| <= 3
    ensures forall i :: 0 <= i < |release| ==>
              release[i].WakeDrain? || release[i].WakeDone? || release[i].RunCallback?
              || release[i].FinishTeardown? || release[i].Check?
    ensures var s, s' := Run(buffered, events), RunFrom(Run(buffered, events), release);
            && !s'.reader.Waiting? && !s'.reader.Checking?
            && (!s'.reader.Stopped? ==> s'.reader == if s.reader.err then ClosingDown else Reading)
            && (s'.reader.Stopped? ==> s'.done)
            && s'.buffered == s.buffered
  {
    EveryRunSafe(buffered, events);
    var s := Run(buffered, events);
    if s.done {
      release := [WakeDone];
      RunShort(s, WakeDone, Check, Check);
    } else if !s.once.Unused? {
      release := [FinishTeardown, WakeDone];
      RunShort(s, FinishTeardown, WakeDone, Check);
    } else if s.drain {
      release := [WakeDrain, Check];
      RunShort(s, WakeDrain, Check, Check);
    } else {
      release := [RunCallback, WakeDrain, Check];
      RunShort(s, RunCallback, WakeDrain, Check);
    }
  }

  /** After a chunk the reader goes on reading, unless the read also failed or the
      buffer is above the high mark. */
  lemma CheckExactly(s: State)
    requires s.reader.Checking?
    ensures var r := Next(s, Check).reader;
            && (r.Waiting? <==> s.buffered > High) && (r.Waiting? ==> r.err == s.reader.err)
            && (r.Reading? <==> s.buffered <= High && !s.reader.err)
            && (r.ClosingDown? <==> s.buffered <= High && s.reader.err)
  {
  }

  /** A failed read or send tears the bridge down: both ends are closed and the
      reader stops, whoever else is already closing. */
  lemma FailureTearsDown(buffered: nat, events: seq<Event>)
    requires buffered <= High && Run(buffered, events).reader.ClosingDown?
    ensures var s := RunFrom(Run(buffered, events), [ReaderClose, FinishTeardown]);
            s.reader.Stopped? && s.once.Finished? && s.done
  {
    EveryRunSafe(buffered, events);
    RunShort(Run(buffered, events), ReaderClose, FinishTeardown, Check);
  }

  /** The steps that carry one chunk across and drain it. */
  function Carry(c: Chunk): seq<Event>
  {
    [Read(c, false), Send(true), Check, Drain(|c|)]
  }

  lemma CarryWorks(buffered: nat, events: seq<Event>, c: Chunk)
    requires var s := Run(buffered, events); s.reader.Reading? && s.buffered == 0 && c != []
    ensures var s, s' := Run(buffered, events), Run(buffered, events + Carry(c));
            && s'.reader.Reading? && s'.buffered == 0 && s'.once == s.once
            && s'.passed == s.passed + [c] && s'.sentOk == s.sentOk + 1
  {
    var s := Run(buffered, events);
    var e1 := events + [Read(c, false)];
    var e2 := e1 + [Send(true)];
    var e3 := e2 + [Check];
    var e4 := e3 + [Drain(|c|)];
    assert events + Carry(c) == e4;
    RunSnoc(buffered, events, Read(c, false));
    RunSnoc(buffered, e1, Send(true));
    RunSnoc(buffered, e2, Check);
    RunSnoc(buffered, e3, Drain(|c|));
  }

  lemma RunSnoc(buffered: nat, events: seq<Event>, e: Event)
    ensures Run(buffered, events + [e]) == Next(Run(buffered, events), e)
  {
    assert (events + [e])[..|events|] == events;
  }

  /** The bridge makes progress: any chunks can be carried across, in order and all
      accepted, and the reader is ready for more. */
  lemma {:induction false} CarriesEverything(chunks: seq<Chunk>) returns (events: seq<Event>)
    requires forall i :: 0 <= i < |chunks| ==> chunks[i] != []
    ensures var s := Run(0, events);
            s.passed == chunks && s.sentOk == |chunks| && s.reader.Reading? && s.buffered == 0 && s.once.Unused?
  {
    events := [];
    if chunks != [] {
      var n := |chunks| - 1;
      var before := CarriesEverything(chunks[..n]);
      CarryWorks(0, before, chunks[n]);
      events := before + Carry(chunks[n]);
      assert chunks == chunks[..n] + [chunks[n]];
    }
  }

  lemma RunShort(s: State, a: Event, b: Event, c: Event)
    ensures RunFrom(s, [a]) == Next(s, a)
    ensures RunFrom(s, [a, b]) == Next(Next(s, a), b)
    ensures RunFrom(s, [a, b, c]) == Next(Next(Next(s, a), b), c)
  {
    var s1 := Next(s, a);
    var s2 := Next(s1, b);
    assert [a][1..] == [] && [b][1..] == [] && [c][1..] == [];
    assert [a, b][1..] == [b] && [b, c][1..] == [c] && [a, b, c][1..] == [b, c];
    assert RunFrom(s1, [b]) == RunFrom(s2, []);
    assert RunFrom(s2, [c]) == RunFrom(Next(s2, c), []);
    assert RunFrom(s1, [b, c]) == RunFrom(s2, [c]);
    assert RunFrom(s, [a, b, c]) == RunFrom(s1, [b, c]);
  }

  /** In every interleaving what was passed to Send is, in order and without gaps, a
      prefix of the bytes read, in non-empty chunks of at most 16 KiB; at most the
      last chunk was refused; and the buffer never exceeds 1 MiB + 16 KiB. */
  lemma InOrderAndBounded(buffered: nat, events: seq<Event>)
    requires buffered <= High
    ensures var s := Run(buffered, events);
            && Flatten(s.passed) <= s.read
            && |s.read| - |Flatten(s.passed)| <= MaxChunk
            && (s.reader.Stopped? || s.reader.Waiting? ==> Flatten(s.passed) == s.read)
            && (forall i :: 0 <= i < |s.passed| ==> 0 < |s.passed[i]| <= MaxChunk)
            && |s.passed| - 1 <= s.sentOk <= |s.passed|
            && s.buffered <= High + MaxChunk
  {
    EveryRunSafe(buffered, events);
  }

  // ---------- the reader goroutine with its reused buffer ----------

  datatype ReadResult = ReadResult(data: seq<byte>, err: bool)

  /** A connection that will deliver the given results. */
  class Conn {
    var script: seq<ReadResult>
    ghost var delivered: seq<byte>

    constructor (script: seq<ReadResult>)
      ensures this.script == script && delivered == []
    {
      this.script := script;
      delivered := [];
    }

    /** Fills the front of `buf`; data that does not fit is left for the next read. */
    method Read(buf: array<byte>) returns (n: nat, err: bool)
      requires buf.Length > 0
      modifies this, buf
      ensures n <= buf.Length && delivered == old(delivered) + buf[..n]
      ensures delivered + Stream(script) == old(delivered + Stream(script))
      ensures err || Size(script) < Size(old(script))
      ensures OnlyLastFails(old(script)) ==> OnlyLastFails(script) && (err ==> script == [])
    {
      if script == [] {
        return 0, true;
      }
      var r := script[0];
      if |r.data| > buf.Length {
        n, err := buf.Length, false;
        SplitRead(script, n);
        script := [ReadResult(r.data[n..], r.err)] + script[1..];
      } else {
        n, err := |r.data|, r.err;
        script := script[1..];
      }
      forall i | 0 <= i < n {
        buf[i] := r.data[i];
      }
      assert buf[..n] == r.data[..n];
      SplitStream(delivered, buf[..n], delivered + buf[..n], Stream(script));
      delivered := delivered + buf[..n];
    }
  }

  /** No read fails before everything was delivered. */
  ghost predicate OnlyLastFails(script: seq<ReadResult>)
  {
    forall i :: 0 <= i < |script| - 1 ==> !script[i].err
  }

  /** Everything the other end of the connection sends. */
  function Stream(script: seq<ReadResult>): seq<byte>
  {
    if script == [] then [] else script[0].data + Stream(script[1..])
  }

  function Size(script: seq<ReadResult>): nat
  {
    if script == [] then 0 else 1 + |script[0].data| + Size(script[1..])
  }

  lemma SplitRead(script: seq<ReadResult>, n: nat)
    requires script != [] && 0 < n <= |script[0].data|
    ensures var s := [ReadResult(script[0].data[n..], script[0].err)] + script[1..];
            Size(s) < Size(script) && script[0].data[..n] + Stream(s) == Stream(script)
  {
    var a, b, t := script[0].data[..n], script[0].data[n..], script[1..];
    var s := [ReadResult(b, script[0].err)] + t;
    assert s[1..] == t;
    SplitStream(a, b, script[0].data, Stream(t));
  }

  lemma SplitStream(a: seq<byte>, b: seq<byte>, c: seq<byte>, t: seq<byte>)
    requires c == a + b
    ensures a + (b + t) == c + t
  {
  }

  /** A data channel that answers sends and backpressure waits as scripted. */
  class DataChannel {
    var answers: seq<bool>
    var releases: seq<bool>
    var passed: seq<seq<byte>>
    ghost var givenUp: bool   // a send was refused, or a wait ended in teardown
    ghost var late: nat       // how many sends came after that

    constructor (answers: seq<bool>, releases: seq<bool>)
      ensures this.answers == answers && this.releases == releases && passed == [] && !givenUp && late == 0
    {
      this.answers, this.releases, passed := answers, releases, [];
      givenUp, late := false, 0;
    }

    /** Every send will be accepted and every wait will end with room. */
    ghost predicate Willing()
      reads this
    {
      !givenUp && (forall i :: 0 <= i < |answers| ==> answers[i]) && (forall i :: 0 <= i < |releases| ==> releases[i])
    }

    method Send(data: seq<byte>) returns (ok: bool)
      modifies this
      ensures passed == old(passed) + [data]
      ensures ok <==> old(answers) == [] || old(answers)[0]
      ensures givenUp == (old(givenUp) || !ok) && late == old(late) + (if old(givenUp) then 1 else 0)
      ensures old(Willing()) ==> Willing()
    {
      passed := passed + [data];
      late := late + (if givenUp then 1 else 0);
      ok := true;
      if answers != [] {
        ok := answers[0];
        answers := answers[1..];
      }
      givenUp := givenUp || !ok;
    }

    /** The backpressure loop; false if it ended because of teardown. */
    method AwaitRoom() returns (released: bool)
      modifies this
      ensures passed == old(passed) && late == old(late) && givenUp == (old(givenUp) || !released)
      ensures released <==> old(releases) == [] || old(releases)[0]
      ensures old(Willing()) ==> Willing()
    {
      released := true;
      if releases != [] {
        released := releases[0];
        releases := releases[1..];
      }
      givenUp := givenUp || !released;
    }
  }

  /** However reads, sends and waits turn out, exactly the bytes read, a prefix of the
      connection's stream, are passed on in order, although one buffer is reused for all
      reads, and nothing after a refused send or a teardown. If nothing goes wrong it is
      the whole stream. */
  method ReaderLoop(conn: Conn, dc: DataChannel)
    requires dc.passed == [] && conn.delivered == [] && !dc.givenUp && dc.late == 0
    modifies conn, dc
    ensures dc.late == 0
    ensures old(dc.Willing() && OnlyLastFails(conn.script)) ==> Flatten(dc.passed) == old(Stream(conn.script))
    ensures Flatten(dc.passed) == conn.delivered && Flatten(dc.passed) + Stream(conn.script) == old(Stream(conn.script))
    ensures forall i :: 0 <= i < |dc.passed| ==> 0 < |dc.passed[i]| <= MaxChunk
  {
    var buf := new byte[MaxChunk];
    var err := false;
    ghost var smooth := dc.Willing() && OnlyLastFails(conn.script);
    while !err
      invariant !dc.givenUp && dc.late == 0
      invariant smooth ==> dc.Willing() && OnlyLastFails(conn.script) && (err ==> conn.script == [])
      invariant Flatten(dc.passed) == conn.delivered && conn.delivered + Stream(conn.script) == old(Stream(conn.script))
      invariant forall i :: 0 <= i < |dc.passed| ==> 0 < |dc.passed[i]| <= MaxChunk
      decreases if err then 0 else 1, Size(conn.script)
    {
      var n;
      n, err := conn.Read(buf);
      if n > 0 {
        ghost var before := dc.passed;
        var ok := dc.Send(buf[..n]);
        FlattenSnoc(before, buf[..n]);
        if !ok {
          return;
        }
        var released := dc.AwaitRoom();
        if !released {
          return;
        }
      }
    }
  }
}
