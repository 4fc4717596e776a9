/** A connection that closes without an error has really finished. */
module ConnectionClose {
  import opened Base
  import opened WrappingIntegers
  import opened TcpSegments
  import opened TcpSenders
  import opened TcpConnections
  import opened ConnectionInvariants

  /** With the outbound stream exhausted and the FIN not sent, something is still in flight. */
  ghost predicate NoLooseEnd(s: Sender) {
    s.synFlag && s.stream.Eof() && !s.finFlag ==> s.flightBytes > 0
  }

  lemma {:induction false} FillLoopLeavesNoLooseEnd(s: Sender, input: seq<byte>)
    requires Sound(s) && Truthful(s, input) && s.synFlag && !s.finFlag
    ensures NoLooseEnd(FillLoop(s))
    decreases |s.stream.buffer|
  {
    if Room(s) == 0 {
      FlightIsSum(s);
      assert s.nextSeqno == s.ackno ==> Room(s) == WindowOf(s);
    } else if !FinishesHere(s) && Chunk(s) != [] {
      ChunkKeeps(s, input);
      FillLoopLeavesNoLooseEnd(SendChunk(s), input);
    }
  }

  /** Filling the window never leaves a loose end, whatever it starts from. */
  lemma FillLeavesNoLooseEnd(s: Sender, input: seq<byte>, sendSyn: bool)
    requires Sound(s) && Truthful(s, input)
    ensures NoLooseEnd(s.FillWindow(sendSyn))
  {
    if s.synFlag && !s.finFlag { FillLoopLeavesNoLooseEnd(s, input); }
  }

  lemma AckLeavesNoLooseEnd(s: Sender, input: seq<byte>, number: uint32, window: uint16)
    requires Sound(s) && Truthful(s, input) && s.segmentsOut == [] && InRange(s) && NoLooseEnd(s)
    ensures NoLooseEnd(s.AckReceived(number, window).0)
  {
    var absolute := Unwrap(number, s.isn, s.ackno);
    if s.ackno < absolute <= s.nextSeqno {
      AfterPopKeeps(s, input, absolute, window);
      FillLeavesNoLooseEnd(AfterPop(s, absolute, window), input, true);
    }
  }

  /** Both directions are done: the peer's stream has ended, the FIN was sent and everything through it acknowledged. */
  ghost predicate Finished(c: Connection) {
    && c.receiver.Ended()
    && c.sender.finFlag && c.sender.flightBytes == 0 && c.sender.ackno == c.sender.nextSeqno
  }

  /** `quiet` is the time that has passed, by ticks, since the last segment the connection looked at. */
  ghost predicate Steady(c: Connection, quiet: nat) {
    && NoLooseEnd(c.sender)
    && (c.receiver.Ended() ==> c.receiver.synSet)
    && (c.receiver.synSet ==> c.sender.synFlag)
    && c.timeSince <= quiet
  }

  ghost predicate HonestlyClosed(c: Connection, quiet: nat) {
    !c.active ==>
      || c.sender.stream.error
      || (Finished(c) && (c.linger ==> quiet >= 10 * c.rtTimeout))
  }

  ghost predicate Orderly(c: Connection, quiet: nat) {
    Steady(c, quiet) && HonestlyClosed(c, quiet)
  }

  lemma FillKeepsFailure(s: Sender, input: seq<byte>, sendSyn: bool)
    requires Sound(s) && Truthful(s, input)
    ensures s.FillWindow(sendSyn).stream.error == s.stream.error
    ensures s.finFlag ==> s.FillWindow(sendSyn) == s
    ensures sendSyn || s.synFlag ==> s.FillWindow(sendSyn).synFlag
  {
    FillAppends(s, input, sendSyn);
    FillKeeps(s, input, sendSyn);
  }

  lemma PushSteady(c: Connection, input: seq<byte>, sendSyn: bool, quiet: nat)
    requires Whole(c, input) && c.timeSince <= quiet && HonestlyClosed(c, quiet)
    requires c.receiver.Ended() ==> c.receiver.synSet
    requires c.receiver.synSet ==> c.sender.synFlag || sendSyn
    ensures Orderly(c.PushSegmentsOut(sendSyn), quiet)
    ensures c.PushSegmentsOut(sendSyn).linger == c.linger
  {
    var fillSyn := sendSyn || c.InSynRecv();
    FillLeavesNoLooseEnd(c.sender, input, fillSyn);
    FillKeepsFailure(c.sender, input, fillSyn);
    DrainedIs(c.(sender := c.sender.FillWindow(fillSyn)));
  }

  /** The only way to close without an error. */
  lemma CleanShutdownHonest(c: Connection, input: seq<byte>, quiet: nat)
    requires Whole(c, input) && Orderly(c, quiet)
    ensures Orderly(c.CleanShutdown(), quiet)
  {
    if c.StreamsFinished() { FlightIsSum(c.sender); }
  }

  lemma UncleanOrderly(c: Connection, input: seq<byte>, sendRst: bool, quiet: nat)
    requires Whole(c, input) && Steady(c, quiet)
    ensures Orderly(c.UncleanShutdown(sendRst), quiet)
  {
    if sendRst {
      ResetWhole(c, input);
      PushSteady(WithReset(c), input, false, quiet);
    }
  }

  lemma WriteOrderly(c: Connection, input: seq<byte>, data: seq<byte>, quiet: nat)
    requires Whole(c, input) && Quiet(c) && Orderly(c, quiet)
    ensures Orderly(c.Write(data), quiet)
  {
    if data != [] {
      WrittenWhole(c, input, data);
      FillKeepsFailure(WriteStream(c.sender, data), WithWritten(c, input, data), true);
      PushSteady(Written(c, data), WithWritten(c, input, data), false, quiet);
    }
  }

  lemma EndOrderly(c: Connection, input: seq<byte>, quiet: nat)
    requires Whole(c, input) && Quiet(c) && Orderly(c, quiet)
    ensures Orderly(c.EndInputStream(), quiet)
  {
    FlagsKeep(c.sender, input);
    var e := c.(sender := EndStream(c.sender), waitForFinAck := true);
    EmittedStays(c, e, input, input);
    PushSteady(e, input, false, quiet);
  }

  lemma TickOrderly(c: Connection, input: seq<byte>, ms: nat, quiet: nat)
    requires Whole(c, input) && Quiet(c) && Orderly(c, quiet) && c.active
    ensures Orderly(c.Tick(ms), quiet + ms)
  {
    PassTimeKeeps(c, input, ms);
    var p := PassTime(c, ms);
    assert Steady(p, quiet + ms);
    GiveUpKeeps(p, input);
    if p.sender.retransmitCount > MAX_RETX_ATTEMPTS { UncleanOrderly(p, input, true, quiet + ms); }
    var g := GiveUpIfExhausted(p);
    PushSteady(g, input, false, quiet + ms);
    PushAdvances(g, input, false);
    CleanShutdownHonest(g.PushSegmentsOut(false), input, quiet + ms);
  }

  lemma TakeInSteady(c: Connection, input: seq<byte>, seg: TcpSegment)
    requires Whole(c, input) && Quiet(c) && InRange(c.sender) && Steady(c, 0) && c.active
    requires c.receiver.synSet || !seg.header.syn || c.sender.nextSeqno != 0
    ensures Steady(TakeIn(c, seg).0, 0)
  {
    hide Emitted, InRange;
    TakeInAdvances(c, input, seg);
    if seg.header.ack { AckLeavesNoLooseEnd(c.sender, input, seg.header.ackno, seg.header.win); }
  }

  lemma ReplyOrderly(c: Connection, input: seq<byte>, wanted: bool)
    requires Whole(c, input) && Orderly(c, 0)
    ensures Orderly(Reply(c, wanted), 0)
  {
    var checked := c.CleanShutdown();
    CleanShutdownKeeps(c, input);
    CleanShutdownHonest(c, input, 0);
    PushSteady(checked, input, false, 0);
    PushSteady(c, input, false, 0);
    if wanted && c.sender.segmentsOut == [] && c.receiver.synSet && checked.active {
      EmptyKeeps(checked.sender, input);
      var e := checked.(sender := checked.sender.SendEmptySegment());
      EmittedStays(checked, e, input, input);
      PushSteady(e, input, false, 0);
    }
  }

  lemma ProcessOrderly(c: Connection, input: seq<byte>, seg: TcpSegment)
    requires Whole(c, input) && Quiet(c) && InRange(c.sender) && Steady(c, 0) && c.active
    requires c.receiver.synSet || !seg.header.syn || c.sender.nextSeqno != 0
    ensures Orderly(Process(c, seg), 0)
  {
    TakeInAdvances(c, input, seg);
    TakeInSteady(c, input, seg);
    var (taken, wanted) := TakeIn(c, seg);
    CleanShutdownHonest(taken, input, 0);
    CleanShutdownKeeps(taken, input);
    var checked := taken.CleanShutdown();
    if checked.active && checked.waitForFinAck && seg.header.ack && seg.SequenceLength() == 0 {
      PushSteady(checked.(waitForFinAck := false), input, false, 0);
    } else if checked.active {
      ReplyOrderly(checked, input, wanted || checked.waitForFinAck || seg.header.fin);
    }
  }

  lemma ReceiveOrderly(c: Connection, input: seq<byte>, seg: TcpSegment, quiet: nat)
    requires Whole(c, input) && Quiet(c) && InRange(c.sender) && Orderly(c, quiet) && c.active
    ensures Orderly(c.SegmentReceived(seg), 0)
  {
    var d := c.(timeSince := 0);
    if c.InListen() && seg.header.syn {
      PushSteady(d.(receiver := c.receiver.SegmentReceived(seg).0, active := true), input, true, 0);
    } else if d.InSynSent() && seg.header.ack && seg.payload != [] {
    } else if seg.header.rst {
      if !(d.InSynSent() && !seg.header.ack) { UncleanOrderly(d, input, false, 0); }
    } else if !(d.InSynRecv() && !seg.header.ack) {
      ProcessOrderly(d, input, seg);
    }
  }

  // ----- Whole runs -----

  /** The time since the last segment the connection looked at, which stops when it becomes inactive. */
  function SilentFor(e: Endpoint, calls: seq<Call>): nat
    decreases |calls|
  {
    if calls == [] then 0 else
    var earlier, call := calls[..|calls| - 1], calls[|calls| - 1];
    Silence(RunCalls(e, earlier).conn, call, SilentFor(e, earlier))
  }

  function Silence(c: Connection, call: Call, quiet: nat): nat {
    if !c.active then quiet
    else if call.Receive? then 0
    else if call.Tick? then quiet + call.ms
    else quiet
  }

  /** Less than 2^31 sequence numbers are in flight whenever a segment arrives. */
  predicate AllInRange(e: Endpoint, calls: seq<Call>)
    decreases |calls|
  {
    calls == [] ||
    var earlier := calls[..|calls| - 1];
    AllInRange(e, earlier) && (calls[|calls| - 1].Receive? ==> InRange(RunCalls(e, earlier).conn.sender))
  }

  ghost predicate Kept(e: Endpoint, quiet: nat) {
    Whole(e.conn, e.input) && Quiet(e.conn) && Orderly(e.conn, quiet)
  }

  lemma PerformOrderly(e: Endpoint, call: Call, quiet: nat)
    requires Kept(e, quiet) && (call.Receive? ==> InRange(e.conn.sender))
    ensures Orderly(Perform(e, call).conn, Silence(e.conn, call, quiet))
  {
    var c, input := e.conn, e.input;
    match call
    case Connect => PushSteady(c.(active := true), input, true, quiet);
    case Write(data) => WriteOrderly(c, input, data, quiet);
    case EndInput => EndOrderly(c, input, quiet);
    case Tick(ms) => if c.active { TickOrderly(c, input, ms, quiet); }
    case Receive(seg) => if c.active { ReceiveOrderly(c, input, seg, quiet); }
    case Read(len) =>
  }

  lemma CallKeeps(e: Endpoint, call: Call, quiet: nat)
    requires Kept(e, quiet) && (call.Receive? ==> InRange(e.conn.sender))
    ensures Kept(Collected(Perform(e, call)), Silence(e.conn, call, quiet))
  {
    PerformAdvances(e, call);
    PerformOrderly(e, call, quiet);
  }

  lemma FreshIsKept(setup: Setup)
    ensures Kept(Fresh(setup), 0)
  {
    NewSenderSound(setup.sendCapacity, setup.timeout, setup.isn);
  }

  lemma {:induction false} RunKeepsOrder(e: Endpoint, calls: seq<Call>)
    requires Kept(e, 0) && AllInRange(e, calls)
    ensures Kept(RunCalls(e, calls), SilentFor(e, calls))
    decreases |calls|
  {
    if calls != [] {
      var earlier := calls[..|calls| - 1];
      RunKeepsOrder(e, earlier);
      CallKeeps(RunCalls(e, earlier), calls[|calls| - 1], SilentFor(e, earlier));
    }
  }

  /** Clean close is honest, over every run and whatever segments arrive: an inactive connection without a
      stream error has seen the end of the peer's stream, has sent its FIN and had everything through it
      acknowledged; and if it still had to linger, ten timeouts passed since the last segment. */
  lemma CleanCloseIsHonest(setup: Setup, calls: seq<Call>)
    requires AllInRange(Fresh(setup), calls)
    ensures var e := Fresh(setup); var c := RunCalls(e, calls).conn;
            !c.active && !c.sender.stream.error ==>
              && c.receiver.Ended()
              && c.sender.finFlag && c.sender.nextSeqno == c.sender.stream.readCount + 2
              && c.sender.ackno == c.sender.nextSeqno && c.sender.outstands == map[]
              && (c.linger ==> SilentFor(e, calls) >= 10 * c.rtTimeout)
  {
    var e := Fresh(setup);
    FreshIsKept(setup);
    RunKeepsOrder(e, calls);
    FlightIsSum(RunCalls(e, calls).conn.sender);
  }
}
