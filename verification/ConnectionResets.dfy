/** Resets: which segments abort a connection, what is left of it, and that nothing else but giving up does. */
module ConnectionResets {
  import opened Base
  import opened WrappingIntegers
  import opened StreamReassemblers
  import opened TcpSegments
  import opened TcpReceivers
  import opened TcpSenders
  import opened TcpConnections
  import opened ConnectionInvariants
  import opened ConnectionClose

  // ----- The states that decide, in the fields -----

  /** Nothing has been sent and nothing has come. */
  predicate Unopened(c: Connection) {
    !c.receiver.synSet && !c.sender.synFlag
  }

  /** The SYN has been sent, nothing behind it, and it has not been acknowledged. */
  predicate SynUnanswered(c: Connection) {
    c.sender.nextSeqno == 1 && c.sender.ackno == 0
  }

  /** Both SYNs are out, the peer's stream goes on, and only our SYN is in flight. */
  predicate SynsCrossed(c: Connection) {
    c.receiver.synSet && !c.receiver.Ended() && c.sender.flightBytes == 1 && c.sender.ackno == 0
  }

  lemma OldestIsSyn(c: Connection, input: seq<byte>)
    requires Whole(c, input)
    ensures c.FirstOutstandingIsSyn() <==> c.sender.outstands != map[] && c.sender.ackno == 0
  {
    var s := c.sender;
    if s.outstands.Keys != {} {
      TilesFirst(s.outstands, OldestSeqno(s), s.nextSeqno);
      var k := MinKey(s.outstands);
      assert Carries(s.outstands[k], k, s.isn, Taken(s, input), s.finFlag);
    }
  }

  /** The tests on the outstanding segments, in terms of the counters. */
  lemma StatesIff(c: Connection, input: seq<byte>)
    requires Whole(c, input)
    ensures c.InListen() <==> Unopened(c)
    ensures c.InSynSent() <==> SynUnanswered(c)
    ensures c.InSynRecv() <==> SynsCrossed(c)
  {
    OldestIsSyn(c, input);
    FlightIsSum(c.sender);
    if c.sender.outstands.Keys != {} { TilesFirst(c.sender.outstands, OldestSeqno(c.sender), c.sender.nextSeqno); }
  }

  // ----- A received RST -----

  /** A RST counts unless it comes with a SYN that opens the connection; before our SYN is answered it
      counts only if it acknowledges something and carries nothing. */
  predicate Resets(c: Connection, seg: TcpSegment) {
    && seg.header.rst && !(Unopened(c) && seg.header.syn)
    && (SynUnanswered(c) ==> seg.header.ack && seg.payload == [])
  }

  /** Both streams are marked as failed, the connection is over, and nothing else has changed. */
  predicate Aborted(c: Connection, d: Connection) {
    d == c.(timeSince := 0, active := false,
            sender := c.sender.(stream := c.sender.stream.(error := true)),
            receiver := c.receiver.(reassembler := c.receiver.reassembler.(
              output := c.receiver.reassembler.output.(error := true))))
  }

  /** What an active connection makes of a RST: it is over, without a word; or the RST goes unnoticed. */
  lemma ResetOutcome(c: Connection, input: seq<byte>, seg: TcpSegment)
    requires Whole(c, input) && c.active && seg.header.rst && !(Unopened(c) && seg.header.syn)
    ensures var d := c.SegmentReceived(seg);
            if Resets(c, seg) then Aborted(c, d) else d == c.(timeSince := 0)
  {
    StatesIff(c, input);
  }

  /** What the handshake drops: an acknowledgement with data before our SYN is answered, and anything that
      acknowledges nothing while the two SYNs cross. */
  lemma DroppedOutcome(c: Connection, input: seq<byte>, seg: TcpSegment)
    requires Whole(c, input) && c.active && !(Unopened(c) && seg.header.syn)
    requires (SynUnanswered(c) && seg.header.ack && seg.payload != []) || (SynsCrossed(c) && !seg.header.ack)
    requires !Resets(c, seg)
    ensures c.SegmentReceived(seg) == c.(timeSince := 0)
  {
    StatesIff(c, input);
  }

  // ----- Nothing else marks a stream as failed -----

  /** The marks of both streams. */
  predicate SameMarks(c: Connection, d: Connection) {
    && d.sender.stream.error == c.sender.stream.error
    && d.receiver.reassembler.output.error == c.receiver.reassembler.output.error
  }

  lemma {:induction false} FillLoopMarks(s: Sender)
    ensures FillLoop(s).stream.error == s.stream.error
    decreases |s.stream.buffer|
  {
    if Room(s) != 0 && !FinishesHere(s) && Chunk(s) != [] { FillLoopMarks(SendChunk(s)); }
  }

  lemma FillMarks(s: Sender, sendSyn: bool)
    ensures s.FillWindow(sendSyn).stream.error == s.stream.error
  {
    if s.synFlag && !s.finFlag { FillLoopMarks(s); }
  }

  lemma {:induction false} PopAckedStream(s: Sender)
    ensures PopAcked(s).stream == s.stream
    decreases |s.outstands|
  {
    if s.outstands.Keys != {} && FirstIsAcked(s) {
      MapRemoveShrinks(s.outstands, MinKey(s.outstands));
      PopAckedStream(PopFirst(s));
    }
  }

  lemma AckMarks(s: Sender, number: uint32, window: uint16)
    ensures s.AckReceived(number, window).0.stream.error == s.stream.error
  {
    var absolute := Unwrap(number, s.isn, s.ackno);
    if s.ackno < absolute <= s.nextSeqno {
      var t := s.(windowSize := window, ackno := absolute, leftTimeout := s.initialTimeout);
      PopAckedStream(t);
      FillMarks(SettleTimer(PopAcked(t)), true);
    }
  }

  lemma AcceptMarks(r: Receiver, seg: TcpSegment)
    ensures Accept(r, seg).reassembler.output.error == r.reassembler.output.error
  {
    hide FallsInWindow, PayloadEnd, StreamIndex, StorePushed, Drain;
    DrainKeepsFlags(StorePushed(r.reassembler, seg.payload, StreamIndex(r, seg)));
    StoreTouchesHeld(r.reassembler, seg.payload, StreamIndex(r, seg));
  }

  lemma StoreTouchesHeld(p: Reassembler, data: seq<byte>, index: uint64)
    ensures StorePushed(p, data, index).output == p.output
  {
  }

  lemma ReceivedMarks(r: Receiver, seg: TcpSegment)
    ensures r.SegmentReceived(seg).0.reassembler.output.error == r.reassembler.output.error
  {
    hide Accept, FallsInWindow;
    if r.synSet != seg.header.syn {
      AcceptMarks(r, seg);
      AcceptMarks(r.(isn := seg.header.seqno, ackno := seg.header.seqno, synSet := true), seg);
    }
  }

  lemma PushMarks(c: Connection, sendSyn: bool)
    ensures SameMarks(c, c.PushSegmentsOut(sendSyn))
    ensures c.PushSegmentsOut(sendSyn).active == c.active
  {
    FillMarks(c.sender, sendSyn || c.InSynRecv());
    DrainedIs(c.(sender := c.sender.FillWindow(sendSyn || c.InSynRecv())));
  }

  lemma CloseMarks(c: Connection)
    ensures SameMarks(c, c.CleanShutdown())
  {
  }

  lemma ProcessMarks(c: Connection, seg: TcpSegment)
    ensures SameMarks(c, Process(c, seg))
  {
    hide Connection.PushSegmentsOut, Connection.CleanShutdown, Receiver.SegmentReceived, Sender.AckReceived;
    var (taken, wanted) := TakeIn(c, seg);
    if seg.header.ack { AckMarks(c.sender, seg.header.ackno, seg.header.win); }
    ReceivedMarks(c.receiver, seg);
    CloseMarks(taken);
    var checked := taken.CleanShutdown();
    PushMarks(checked.(waitForFinAck := false), false);
    ReplyMarks(checked, wanted || checked.waitForFinAck || seg.header.fin);
  }

  lemma ReplyMarks(c: Connection, wanted: bool)
    ensures SameMarks(c, Reply(c, wanted))
  {
    hide Connection.PushSegmentsOut, Connection.CleanShutdown;
    CloseMarks(c);
    PushMarks(c, false);
    var checked := c.CleanShutdown();
    PushMarks(checked, false);
    PushMarks(checked.(sender := checked.sender.SendEmptySegment()), false);
  }

  lemma ReceiveMarks(c: Connection, input: seq<byte>, seg: TcpSegment)
    requires Whole(c, input) && !(c.active && Resets(c, seg))
    ensures SameMarks(c, c.SegmentReceived(seg))
  {
    hide Process;
    if c.active {
      var d := c.(timeSince := 0);
      if seg.header.rst && !(Unopened(c) && seg.header.syn) {
        ResetOutcome(c, input, seg);
      } else if c.InListen() && seg.header.syn {
        ReceivedMarks(c.receiver, seg);
        PushMarks(d.(receiver := c.receiver.SegmentReceived(seg).0, active := true), true);
      } else {
        StatesIff(c, input);
        ProcessMarks(d, seg);
      }
    }
  }

  // ----- Giving up -----

  /** The ninth counted retransmission is due, or has been before. */
  predicate GivesUp(s: Sender, ms: nat) {
    || s.retransmitCount > 8
    || (s.outstands != map[] && s.leftTimeout <= ms && s.windowSize > 0 && s.retransmitCount == 8)
  }

  lemma ExhaustedIff(s: Sender, ms: nat)
    requires Sound(s)
    ensures s.Tick(ms).retransmitCount > MAX_RETX_ATTEMPTS <==> GivesUp(s, ms)
    ensures s.Tick(ms).stream == s.stream
  {
    FlightIsSum(s);
  }

  lemma TickMarks(c: Connection, input: seq<byte>, ms: nat)
    requires Whole(c, input) && c.active
    ensures if GivesUp(c.sender, ms) then BothMarked(c.Tick(ms)) else SameMarks(c, c.Tick(ms))
  {
    hide Connection.PushSegmentsOut, Connection.CleanShutdown, Sender.Tick, GivesUp;
    ExhaustedIff(c.sender, ms);
    var p := PassTime(c, ms);
    PushMarks(WithReset(p), false);
    var g := GiveUpIfExhausted(p);
    PushMarks(g, false);
    CloseMarks(g.PushSegmentsOut(false));
  }

  // ----- Whole runs -----

  predicate BothMarked(c: Connection) {
    c.sender.stream.error && c.receiver.reassembler.output.error
  }

  /** The call ends the connection with an error. */
  predicate AbortsBy(c: Connection, call: Call) {
    c.active && match call
                case Receive(seg) => Resets(c, seg)
                case Tick(ms) => GivesUp(c.sender, ms)
                case _ => false
  }

  lemma WriteMarks(c: Connection, data: seq<byte>)
    ensures SameMarks(c, c.Write(data))
  {
    hide Connection.PushSegmentsOut, Sender.FillWindow;
    FillMarks(WriteStream(c.sender, data), true);
    PushMarks(c.(sender := WriteStream(c.sender, data).FillWindow(true)), false);
  }

  lemma CallMarks(e: Endpoint, call: Call)
    requires Whole(e.conn, e.input)
    ensures var c, d := e.conn, Perform(e, call).conn;
            if AbortsBy(c, call) then BothMarked(d) else SameMarks(c, d)
  {
    hide Connection.PushSegmentsOut, Connection.Tick, Connection.SegmentReceived, Connection.Write, GivesUp, Resets;
    var c := e.conn;
    match call
    case Connect => PushMarks(c.(active := true), true);
    case Write(data) => WriteMarks(c, data);
    case EndInput => PushMarks(c.(sender := EndStream(c.sender), waitForFinAck := true), false);
    case Tick(ms) =>
      if c.active { TickMarks(c, e.input, ms); } else { InactiveIgnores(c, call); }
    case Receive(seg) =>
      if AbortsBy(c, call) { CountedReset(c, e.input, seg); } else { ReceiveMarks(c, e.input, seg); }
    case Read(len) =>
  }

  lemma CountedReset(c: Connection, input: seq<byte>, seg: TcpSegment)
    requires Whole(c, input) && c.active && Resets(c, seg)
    ensures BothMarked(c.SegmentReceived(seg))
  {
    hide Connection.SegmentReceived;
    ResetOutcome(c, input, seg);
  }

  /** An inactive connection takes no notice of segments and of time. */
  lemma InactiveIgnores(c: Connection, call: Call)
    requires !c.active
    ensures call.Tick? ==> c.Tick(call.ms) == c
    ensures call.Receive? ==> c.SegmentReceived(call.seg) == c
  {
  }

  predicate SomeAborts(e: Endpoint, calls: seq<Call>)
    decreases |calls|
  {
    calls != [] &&
    var earlier := calls[..|calls| - 1];
    SomeAborts(e, earlier) || AbortsBy(RunCalls(e, earlier).conn, calls[|calls| - 1])
  }

  /** Over every run of calls, whatever segments arrive: the streams are marked as failed, both of them, if and
      only if some RST counted or the connection gave up. */
  lemma {:induction false} FailedIff(setup: Setup, calls: seq<Call>)
    requires AllInRange(Fresh(setup), calls)
    ensures var c := RunCalls(Fresh(setup), calls).conn;
            && (c.sender.stream.error <==> SomeAborts(Fresh(setup), calls))
            && (c.receiver.reassembler.output.error <==> SomeAborts(Fresh(setup), calls))
    decreases |calls|
  {
    if calls != [] {
      var earlier, call := calls[..|calls| - 1], calls[|calls| - 1];
      FailedIff(setup, earlier);
      FreshIsKept(setup);
      RunKeepsOrder(Fresh(setup), earlier);
      CallMarks(RunCalls(Fresh(setup), earlier), call);
    }
  }
}
