/** What every operation of a connection keeps, whatever segments it receives. */
module ConnectionInvariants {
  import opened Base
  import opened WrappingIntegers
  import opened TcpSegments
  import opened TcpReceivers
  import opened TcpSenders
  import opened TcpSenderRuns
  import opened TcpConnections

  // ----- One endpoint and its history -----

  /** A connection with every byte its application wrote and every byte it read. */
  datatype Endpoint = Endpoint(conn: Connection, input: seq<byte>, read: seq<byte>)

  datatype Setup = Setup(receiveCapacity: nat, sendCapacity: nat, timeout: nat, isn: uint32)

  function Fresh(setup: Setup): Endpoint {
    Endpoint(NewConnection(setup.receiveCapacity, setup.sendCapacity, setup.timeout, setup.isn), [], [])
  }

  datatype Call =
    | Connect | Write(data: seq<byte>) | EndInput | Tick(ms: nat) | Receive(seg: TcpSegment) | Read(len: nat)

  function ReadInbound(c: Connection, len: nat): Connection {
    var p := c.receiver.reassembler;
    c.(receiver := c.receiver.(reassembler := p.(output := p.output.Pop(len))))
  }

  function Perform(e: Endpoint, call: Call): Endpoint {
    match call
    case Connect => e.(conn := e.conn.Connect())
    case Write(data) =>
      Endpoint(e.conn.Write(data), e.input + data[..Min(|data|, e.conn.sender.stream.Remaining())], e.read)
    case EndInput => e.(conn := e.conn.EndInputStream())
    case Tick(ms) => e.(conn := e.conn.Tick(ms))
    case Receive(seg) => e.(conn := e.conn.SegmentReceived(seg))
    case Read(len) =>
      Endpoint(ReadInbound(e.conn, len), e.input, e.read + e.conn.receiver.reassembler.output.Peek(len))
  }

  /** The owner takes the outbound segments away after each call. */
  function Collected(e: Endpoint): Endpoint {
    e.(conn := e.conn.(segmentsOut := []))
  }

  function RunCalls(e: Endpoint, calls: seq<Call>): Endpoint
    decreases |calls|
  {
    if calls == [] then e else Collected(Perform(RunCalls(e, calls[..|calls| - 1]), calls[|calls| - 1]))
  }

  // ----- Outbound segments -----

  /** An acknowledgement on a segment is the receiver's current one. */
  predicate StampedBy(seg: TcpSegment, r: Receiver) {
    seg.header.ack ==> r.synSet && seg.header.ackno == r.ackno
  }

  ghost predicate Emitted(c: Connection, input: seq<byte>)
    requires Feeds(c.sender, input)
  {
    forall seg :: seg in c.segmentsOut ==>
      CarriesInFlight(c.sender, seg, Taken(c.sender, input)) && StampedBy(seg, c.receiver)
  }

  ghost predicate Whole(c: Connection, input: seq<byte>) {
    Sound(c.sender) && Truthful(c.sender, input) && Emitted(c, input)
  }

  ghost predicate Quiet(c: Connection) {
    c.segmentsOut == [] && c.sender.segmentsOut == []
  }

  /** The queue moves over in order; each segment is stamped, the first with the pending RST. */
  lemma {:induction false} DrainedIs(c: Connection)
    ensures var d, queue := Drained(c), c.sender.segmentsOut;
            && d == c.(sender := TakeQueue(c.sender), segmentsOut := d.segmentsOut,
                       needSendRst := c.needSendRst && queue == [])
            && c.segmentsOut <= d.segmentsOut && |d.segmentsOut| == |c.segmentsOut| + |queue|
            && forall i :: 0 <= i < |queue| ==>
                 d.segmentsOut[|c.segmentsOut| + i] == Stamp(queue[i], c.receiver, c.needSendRst && i == 0)
    decreases |c.sender.segmentsOut|
  {
    if c.sender.segmentsOut != [] {
      var next := MoveFirst(c);
      DrainedIs(next);
      var d, queue := Drained(c), c.sender.segmentsOut;
      forall i | 0 <= i < |queue|
        ensures d.segmentsOut[|c.segmentsOut| + i] == Stamp(queue[i], c.receiver, c.needSendRst && i == 0)
      {
        if i > 0 { assert d.segmentsOut[|next.segmentsOut| + (i - 1)] == Stamp(queue[1..][i - 1], c.receiver, false); }
      }
    }
  }

  lemma StampCarries(s: Sender, seg: TcpSegment, r: Receiver, rst: bool, taken: seq<byte>)
    requires CarriesInFlight(s, seg, taken) && !seg.header.ack
    ensures CarriesInFlight(TakeQueue(s), Stamp(seg, r, rst), taken) && StampedBy(Stamp(seg, r, rst), r)
  {
    var k: nat :| OldestSeqno(s) <= k <= s.nextSeqno && Carries(seg, k, s.isn, taken, s.finFlag);
    assert Carries(Stamp(seg, r, rst), k, TakeQueue(s).isn, taken, TakeQueue(s).finFlag);
  }

  lemma DrainedSegment(c: Connection, input: seq<byte>, j: nat)
    requires Whole(c, input) && j < |Drained(c).segmentsOut|
    ensures Drained(c).sender == TakeQueue(c.sender) && Drained(c).receiver == c.receiver
    ensures CarriesInFlight(TakeQueue(c.sender), Drained(c).segmentsOut[j], Taken(c.sender, input))
            && StampedBy(Drained(c).segmentsOut[j], c.receiver)
  {
    hide Sound, Drained;
    DrainedIs(c);
    var queue, taken := c.sender.segmentsOut, Taken(c.sender, input);
    if j < |c.segmentsOut| {
      var seg := c.segmentsOut[j];
      assert Drained(c).segmentsOut[j] == seg && seg in c.segmentsOut;
      StillCarries(c.sender, seg, taken);
    } else {
      var i := j - |c.segmentsOut|;
      assert queue[i] in queue;
      StampCarries(c.sender, queue[i], c.receiver, c.needSendRst && i == 0, taken);
    }
  }

  lemma DrainedWhole(c: Connection, input: seq<byte>)
    requires Whole(c, input)
    ensures Whole(Drained(c), input)
  {
    DrainedIs(c);
    FlagsKeep(c.sender, input);
    var d := Drained(c);
    forall seg | seg in d.segmentsOut
      ensures CarriesInFlight(d.sender, seg, Taken(d.sender, input)) && StampedBy(seg, d.receiver)
    {
      var j :| 0 <= j < |d.segmentsOut| && d.segmentsOut[j] == seg;
      DrainedSegment(c, input, j);
    }
  }

  lemma StillCarries(s: Sender, seg: TcpSegment, taken: seq<byte>)
    requires CarriesInFlight(s, seg, taken)
    ensures CarriesInFlight(TakeQueue(s), seg, taken)
  {
    var k: nat :| OldestSeqno(s) <= k <= s.nextSeqno && Carries(seg, k, s.isn, taken, s.finFlag);
    assert Carries(seg, k, TakeQueue(s).isn, taken, TakeQueue(s).finFlag);
  }

  /** A change of the sender that only moves forward keeps what has been emitted true. */
  lemma EmittedStays(c: Connection, c': Connection, input: seq<byte>, input': seq<byte>)
    requires Feeds(c.sender, input) && Emitted(c, input) && Evolves(c.sender, input, c'.sender, input')
    requires OldestSeqno(c'.sender) == OldestSeqno(c.sender) && c'.segmentsOut == c.segmentsOut
    requires c'.receiver.synSet == c.receiver.synSet && c'.receiver.ackno == c.receiver.ackno
    ensures Emitted(c', input')
  {
    forall seg | seg in c'.segmentsOut
      ensures CarriesInFlight(c'.sender, seg, Taken(c'.sender, input')) && StampedBy(seg, c'.receiver)
    {
      var k: nat :| OldestSeqno(c.sender) <= k <= c.sender.nextSeqno
                    && Carries(seg, k, c.sender.isn, Taken(c.sender, input), c.sender.finFlag);
      CarriesInExtension(seg, k, c.sender.isn, Taken(c.sender, input), c.sender.finFlag,
                         Taken(c'.sender, input'), c'.sender.finFlag);
    }
  }

  /** One operation in terms of its parts: the sender moved forward, and the queue is empty again. */
  ghost predicate Advances(c: Connection, input: seq<byte>, c': Connection, input': seq<byte>) {
    && Whole(c', input') && c'.sender.segmentsOut == []
    && Evolves(c.sender, input, c'.sender, input')
  }

  lemma PushAdvances(c: Connection, input: seq<byte>, sendSyn: bool)
    requires Whole(c, input)
    ensures var c' := c.PushSegmentsOut(sendSyn);
            && Advances(c, input, c', input)
            && c' == c.(sender := c'.sender, segmentsOut := c'.segmentsOut, needSendRst := c'.needSendRst)
            && OldestSeqno(c'.sender) == OldestSeqno(c.sender)
  {
    var fillSyn := sendSyn || c.InSynRecv();
    FillKeeps(c.sender, input, fillSyn);
    var filled := c.(sender := c.sender.FillWindow(fillSyn));
    EmittedStays(c, filled, input, input);
    DrainedWhole(filled, input);
    DrainedIs(filled);
  }

  lemma CleanShutdownKeeps(c: Connection, input: seq<byte>)
    requires Whole(c, input)
    ensures var c' := c.CleanShutdown();
            Whole(c', input) && c'.sender == c.sender && c'.receiver == c.receiver && c'.segmentsOut == c.segmentsOut
  {
  }

  lemma FailWhole(c: Connection, input: seq<byte>)
    requires Whole(c, input)
    ensures Whole(Fail(c), input) && Evolves(c.sender, input, Fail(c).sender, input)
    ensures OldestSeqno(Fail(c).sender) == OldestSeqno(c.sender)
  {
    FlagsKeep(c.sender, input);
    EmittedStays(c, Fail(c), input, input);
  }

  /** The state that an abort with a RST pushes out. */
  function WithReset(c: Connection): Connection {
    var f := Fail(c);
    f.(needSendRst := true, sender := if f.sender.segmentsOut == [] then f.sender.SendEmptySegment() else f.sender)
  }

  lemma ResetWhole(c: Connection, input: seq<byte>)
    requires Whole(c, input)
    ensures Whole(WithReset(c), input) && Evolves(c.sender, input, WithReset(c).sender, input)
    ensures OldestSeqno(WithReset(c).sender) == OldestSeqno(c.sender)
    ensures c.UncleanShutdown(true) == WithReset(c).PushSegmentsOut(false)
  {
    FailWhole(c, input);
    EmptyKeeps(Fail(c).sender, input);
    EmittedStays(Fail(c), WithReset(c), input, input);
  }

  lemma UncleanAdvances(c: Connection, input: seq<byte>, sendRst: bool)
    requires Whole(c, input) && (sendRst || c.sender.segmentsOut == [])
    ensures Advances(c, input, c.UncleanShutdown(sendRst), input)
    ensures OldestSeqno(c.UncleanShutdown(sendRst).sender) == OldestSeqno(c.sender)
    ensures c.UncleanShutdown(sendRst).receiver == Failed(c.receiver) && !c.UncleanShutdown(sendRst).active
  {
    FailWhole(c, input);
    if sendRst {
      ResetWhole(c, input);
      PushAdvances(WithReset(c), input, false);
    }
  }

  /** The state of a write before its segments are pushed out. */
  function Written(c: Connection, data: seq<byte>): Connection {
    c.(sender := WriteStream(c.sender, data).FillWindow(true))
  }

  function WithWritten(c: Connection, input: seq<byte>, data: seq<byte>): seq<byte> {
    input + data[..Min(|data|, c.sender.stream.Remaining())]
  }

  lemma WrittenWhole(c: Connection, input: seq<byte>, data: seq<byte>)
    requires Whole(c, input)
    ensures var input' := WithWritten(c, input, data);
            && Sound(WriteStream(c.sender, data)) && Truthful(WriteStream(c.sender, data), input')
            && Whole(Written(c, data), input') && Evolves(c.sender, input, Written(c, data).sender, input')
  {
    var input' := WithWritten(c, input, data);
    WriteKeeps(c.sender, input, data);
    var w := c.(sender := WriteStream(c.sender, data));
    EmittedStays(c, w, input, input');
    FillKeeps(w.sender, input', true);
    EmittedStays(w, Written(c, data), input', input');
  }

  lemma WriteAdvances(c: Connection, input: seq<byte>, data: seq<byte>)
    requires Whole(c, input) && c.sender.segmentsOut == []
    ensures Advances(c, input, c.Write(data), WithWritten(c, input, data))
    ensures c.Write(data).receiver == c.receiver
  {
    if data != [] {
      WrittenWhole(c, input, data);
      PushAdvances(Written(c, data), WithWritten(c, input, data), false);
    } else {
      assert input + [] == input;
    }
  }

  lemma EndAdvances(c: Connection, input: seq<byte>)
    requires Whole(c, input) && c.sender.segmentsOut == []
    ensures Advances(c, input, c.EndInputStream(), input)
    ensures c.EndInputStream().receiver == c.receiver
  {
    FlagsKeep(c.sender, input);
    var e := c.(sender := EndStream(c.sender), waitForFinAck := true);
    EmittedStays(c, e, input, input);
    PushAdvances(e, input, false);
  }

  lemma TickAdvances(c: Connection, input: seq<byte>, ms: nat)
    requires Whole(c, input) && c.sender.segmentsOut == []
    ensures Advances(c, input, c.Tick(ms), input)
    ensures c.Tick(ms).receiver == c.receiver || c.Tick(ms).receiver == Failed(c.receiver)
  {
    if c.active {
      PassTimeKeeps(c, input, ms);
      var p := PassTime(c, ms);
      GiveUpKeeps(p, input);
      var g := GiveUpIfExhausted(p);
      PushAdvances(g, input, false);
      CleanShutdownKeeps(g.PushSegmentsOut(false), input);
    }
  }

  lemma PassTimeKeeps(c: Connection, input: seq<byte>, ms: nat)
    requires Whole(c, input)
    ensures var p := PassTime(c, ms);
            Whole(p, input) && Evolves(c.sender, input, p.sender, input) && p.receiver == c.receiver
  {
    TickKeeps(c.sender, input, ms);
    EmittedStays(c, PassTime(c, ms), input, input);
  }

  lemma GiveUpKeeps(c: Connection, input: seq<byte>)
    requires Whole(c, input)
    ensures var g := GiveUpIfExhausted(c);
            && Whole(g, input) && Evolves(c.sender, input, g.sender, input)
            && (g.receiver == c.receiver || g.receiver == Failed(c.receiver))
  {
    if c.sender.retransmitCount > MAX_RETX_ATTEMPTS { UncleanAdvances(c, input, true); }
  }

  /** The sender's numbers stay in the range where stored sequence numbers unwrap correctly. */
  predicate InRange(s: Sender) {
    s.flightBytes < U31 && SmallStream(s)
  }

  lemma TakeInAdvances(c: Connection, input: seq<byte>, seg: TcpSegment)
    requires Whole(c, input) && Quiet(c) && InRange(c.sender)
    ensures var t := TakeIn(c, seg).0;
            && Whole(t, input) && Evolves(c.sender, input, t.sender, input) && t.segmentsOut == []
            && t.receiver == c.receiver.SegmentReceived(seg).0
            && t == c.(sender := t.sender, receiver := t.receiver)
  {
    if seg.header.ack { QuietAckKeeps(c.sender, input, seg.header.ackno, seg.header.win); }
  }

  lemma ReplyAdvances(c: Connection, input: seq<byte>, wanted: bool)
    requires Whole(c, input)
    ensures Advances(c, input, Reply(c, wanted), input)
    ensures Reply(c, wanted).receiver == c.receiver
  {
    hide Connection.StreamsFinished, Truthful, Whole, Sound;
    var checked := c.CleanShutdown();
    CleanShutdownKeeps(c, input);
    if wanted && c.sender.segmentsOut == [] && c.receiver.synSet && checked.active {
      EmptyKeeps(checked.sender, input);
      var e := checked.(sender := checked.sender.SendEmptySegment());
      EmittedStays(checked, e, input, input);
      PushAdvances(e, input, false);
    } else {
      PushAdvances(checked, input, false);
      PushAdvances(c, input, false);
    }
  }

  /** The last part of processing, from the state after the check for a clean close. */
  lemma ConcludeAdvances(c: Connection, input: seq<byte>, checked: Connection, seg: TcpSegment, wanted: bool)
    requires Feeds(c.sender, input) && Whole(checked, input) && Evolves(c.sender, input, checked.sender, input)
    ensures var d := if checked.waitForFinAck && seg.header.ack && seg.SequenceLength() == 0
                     then checked.(waitForFinAck := false).PushSegmentsOut(false)
                     else Reply(checked, wanted || checked.waitForFinAck || seg.header.fin);
            Advances(c, input, d, input) && d.receiver == checked.receiver
  {
    hide Sound, Connection.PushSegmentsOut;
    if checked.waitForFinAck && seg.header.ack && seg.SequenceLength() == 0 {
      PushAdvances(checked.(waitForFinAck := false), input, false);
    } else {
      ReplyAdvances(checked, input, wanted || checked.waitForFinAck || seg.header.fin);
    }
  }

  /** Finishing a connection leaves nothing queued: whatever was queued is still in flight. */
  lemma ProcessAdvances(c: Connection, input: seq<byte>, seg: TcpSegment)
    requires Whole(c, input) && Quiet(c) && InRange(c.sender) && c.active
    ensures Advances(c, input, Process(c, seg), input)
    ensures Process(c, seg).receiver == c.receiver.SegmentReceived(seg).0
  {
    TakeInAdvances(c, input, seg);
    var (taken, wanted) := TakeIn(c, seg);
    CleanShutdownKeeps(taken, input);
    var checked := taken.CleanShutdown();
    if checked.active {
      ConcludeAdvances(c, input, checked, seg, wanted);
    } else {
      ClosedQueueEmpty(c, input, seg);
    }
  }

  /** Whatever filling the window adds to the queue is in flight afterwards. */
  lemma {:induction false} FillLoopQueues(s: Sender, input: seq<byte>)
    requires Sound(s) && Truthful(s, input) && s.synFlag && !s.finFlag
    ensures var s' := FillLoop(s);
            && s.segmentsOut <= s'.segmentsOut && s'.flightBytes >= s.flightBytes
            && (s'.segmentsOut != s.segmentsOut ==> s'.flightBytes > s.flightBytes)
            && (forall i :: |s.segmentsOut| <= i < |s'.segmentsOut| ==> s'.segmentsOut[i].SequenceLength() > 0)
    decreases |s.stream.buffer|
  {
    hide Sound, Room;
    if Room(s) != 0 && (FinishesHere(s) || Chunk(s) != []) {
      ChunkKeeps(s, input);
      if !FinishesHere(s) { FillLoopQueues(SendChunk(s), input); }
    }
  }

  lemma FillQueues(s: Sender, input: seq<byte>, sendSyn: bool)
    requires Sound(s) && Truthful(s, input)
    ensures var s' := s.FillWindow(sendSyn);
            && s.segmentsOut <= s'.segmentsOut && s'.flightBytes >= s.flightBytes
            && (s'.segmentsOut != s.segmentsOut ==> s'.flightBytes > s.flightBytes)
            && (forall i :: |s.segmentsOut| <= i < |s'.segmentsOut| ==> s'.segmentsOut[i].SequenceLength() > 0)
  {
    if s.synFlag && !s.finFlag { FillLoopQueues(s, input); }
  }

  /** An acknowledgement by itself queues only segments that occupy sequence space and stay in flight. */
  lemma AckQueues(s: Sender, input: seq<byte>, number: uint32, window: uint16)
    requires Sound(s) && Truthful(s, input) && s.segmentsOut == [] && InRange(s)
    ensures var s' := s.AckReceived(number, window).0;
            && (s'.segmentsOut != [] ==> s'.flightBytes > 0)
            && (forall i :: 0 <= i < |s'.segmentsOut| ==> s'.segmentsOut[i].SequenceLength() > 0)
  {
    var absolute := Unwrap(number, s.isn, s.ackno);
    if s.ackno < absolute <= s.nextSeqno {
      AfterPopKeeps(s, input, absolute, window);
      FillQueues(AfterPop(s, absolute, window), input, true);
    }
  }

  lemma ClosedQueueEmpty(c: Connection, input: seq<byte>, seg: TcpSegment)
    requires Whole(c, input) && Quiet(c) && InRange(c.sender) && c.active
    requires !TakeIn(c, seg).0.CleanShutdown().active
    ensures TakeIn(c, seg).0.sender.segmentsOut == []
  {
    if seg.header.ack { AckQueues(c.sender, input, seg.header.ackno, seg.header.win); }
  }

  /** None of the handshake and reset rules disposes of the segment. */
  predicate PassesEarlyReturns(c: Connection, seg: TcpSegment) {
    && !(c.InSynSent() && seg.header.ack && seg.payload != [])
    && !seg.header.rst
    && !(c.InSynRecv() && !seg.header.ack)
  }

  /** The segment reaches the receiver. */
  predicate HandedOver(c: Connection, seg: TcpSegment) {
    c.active && ((c.InListen() && seg.header.syn) || PassesEarlyReturns(c, seg))
  }

  lemma SiftAdvances(c: Connection, input: seq<byte>, seg: TcpSegment)
    requires Whole(c, input) && Quiet(c) && InRange(c.sender) && c.active
    ensures Advances(c, input, c.Sift(seg), input)
    ensures var r := c.Sift(seg).receiver;
            if PassesEarlyReturns(c, seg) then r == c.receiver.SegmentReceived(seg).0
            else r == c.receiver || r == Failed(c.receiver)
  {
    if c.InSynSent() && seg.header.ack && seg.payload != [] {
    } else if seg.header.rst {
      if !(c.InSynSent() && !seg.header.ack) { UncleanAdvances(c, input, false); }
    } else if !(c.InSynRecv() && !seg.header.ack) {
      ProcessAdvances(c, input, seg);
    }
  }

  lemma ReceiveAdvances(c: Connection, input: seq<byte>, seg: TcpSegment)
    requires Whole(c, input) && Quiet(c) && InRange(c.sender)
    ensures Advances(c, input, c.SegmentReceived(seg), input)
    ensures var r := c.SegmentReceived(seg).receiver;
            if HandedOver(c, seg) then r == c.receiver.SegmentReceived(seg).0
            else r == c.receiver || r == Failed(c.receiver)
  {
    hide Connection.Sift, Connection.PushSegmentsOut, Receiver.SegmentReceived;
    var d := c.(timeSince := 0);
    if !c.active {
    } else if c.InListen() && seg.header.syn {
      PushAdvances(d.(receiver := c.receiver.SegmentReceived(seg).0, active := true), input, true);
    } else {
      SiftAdvances(d, input, seg);
    }
  }

  lemma ConnectAdvances(c: Connection, input: seq<byte>)
    requires Whole(c, input)
    ensures Advances(c, input, c.Connect(), input)
    ensures c.Connect().receiver == c.receiver
  {
    PushAdvances(c.(active := true), input, true);
  }

  /** The sending half after any call: still sound, its stream only extended, its queue empty. */
  lemma PerformAdvances(e: Endpoint, call: Call)
    requires Whole(e.conn, e.input) && Quiet(e.conn) && (call.Receive? ==> InRange(e.conn.sender))
    ensures Advances(e.conn, e.input, Perform(e, call).conn, Perform(e, call).input)
  {
    match call
    case Connect => ConnectAdvances(e.conn, e.input);
    case Write(data) => WriteAdvances(e.conn, e.input, data);
    case EndInput => EndAdvances(e.conn, e.input);
    case Tick(ms) => TickAdvances(e.conn, e.input, ms);
    case Receive(seg) => ReceiveAdvances(e.conn, e.input, seg);
    case Read(len) =>
  }

  // ----- What calls do to the timer and the acknowledgement number -----

  /** Nothing was acknowledged, no time has passed, the peer's window is the same. */
  ghost predicate Unhurried(s: Sender, s': Sender) {
    && SameTimer(s, s') && s'.ackno == s.ackno && s'.windowSize == s.windowSize && s'.isn == s.isn
  }

  lemma FillUnhurried(s: Sender, input: seq<byte>, sendSyn: bool)
    requires Sound(s) && Truthful(s, input)
    ensures Unhurried(s, s.FillWindow(sendSyn))
  {
    FillAppends(s, input, sendSyn);
    if s.outstands != map[] {
      var k :| k in s.outstands;
      assert k in s.FillWindow(sendSyn).outstands;
    }
  }

  lemma PushUnhurried(c: Connection, input: seq<byte>, sendSyn: bool)
    requires Whole(c, input)
    ensures Unhurried(c.sender, c.PushSegmentsOut(sendSyn).sender)
  {
    FillUnhurried(c.sender, input, sendSyn || c.InSynRecv());
    DrainedIs(c.(sender := c.sender.FillWindow(sendSyn || c.InSynRecv())));
  }

  lemma UncleanUnhurried(c: Connection, input: seq<byte>, sendRst: bool)
    requires Whole(c, input)
    ensures Unhurried(c.sender, c.UncleanShutdown(sendRst).sender)
  {
    if sendRst {
      ResetWhole(c, input);
      PushUnhurried(WithReset(c), input, false);
    }
  }

  lemma WriteUnhurried(c: Connection, input: seq<byte>, data: seq<byte>)
    requires Whole(c, input) && c.sender.segmentsOut == []
    ensures Unhurried(c.sender, c.Write(data).sender)
  {
    if data != [] {
      WrittenWhole(c, input, data);
      FillUnhurried(WriteStream(c.sender, data), WithWritten(c, input, data), true);
      PushUnhurried(Written(c, data), WithWritten(c, input, data), false);
    }
  }

  lemma EndUnhurried(c: Connection, input: seq<byte>)
    requires Whole(c, input) && c.sender.segmentsOut == []
    ensures Unhurried(c.sender, c.EndInputStream().sender)
  {
    FlagsKeep(c.sender, input);
    var e := c.(sender := EndStream(c.sender), waitForFinAck := true);
    EmittedStays(c, e, input, input);
    PushUnhurried(e, input, false);
  }

  lemma GiveUpUnhurried(c: Connection, input: seq<byte>)
    requires Whole(c, input)
    ensures Unhurried(c.sender, GiveUpIfExhausted(c).sender)
  {
    if c.sender.retransmitCount > MAX_RETX_ATTEMPTS { UncleanUnhurried(c, input, true); }
  }

  lemma TickUnhurried(c: Connection, input: seq<byte>, ms: nat)
    requires Whole(c, input) && c.active
    ensures Unhurried(c.sender.Tick(ms), c.Tick(ms).sender)
  {
    hide Connection.PushSegmentsOut, GiveUpIfExhausted;
    PassTimeKeeps(c, input, ms);
    var p := PassTime(c, ms);
    GiveUpKeeps(p, input);
    GiveUpUnhurried(p, input);
    PushUnhurried(GiveUpIfExhausted(p), input, false);
  }

  lemma ReplyUnhurried(c: Connection, input: seq<byte>, wanted: bool)
    requires Whole(c, input)
    ensures Unhurried(c.sender, Reply(c, wanted).sender)
  {
    var checked := c.CleanShutdown();
    CleanShutdownKeeps(c, input);
    PushUnhurried(checked, input, false);
    PushUnhurried(c, input, false);
    if wanted && c.sender.segmentsOut == [] && c.receiver.synSet && checked.active {
      EmptyKeeps(checked.sender, input);
      var e := checked.(sender := checked.sender.SendEmptySegment());
      EmittedStays(checked, e, input, input);
      PushUnhurried(e, input, false);
    }
  }

  /** The sender after taking in the acknowledgement that a segment carries. */
  function Acked(s: Sender, seg: TcpSegment): Sender {
    if seg.header.ack then s.AckReceived(seg.header.ackno, seg.header.win).0 else s
  }

  lemma ProcessUnhurried(c: Connection, input: seq<byte>, seg: TcpSegment)
    requires Whole(c, input) && Quiet(c) && InRange(c.sender)
    ensures Unhurried(Acked(c.sender, seg), Process(c, seg).sender)
  {
    TakeInAdvances(c, input, seg);
    var (taken, wanted) := TakeIn(c, seg);
    CleanShutdownKeeps(taken, input);
    var checked := taken.CleanShutdown();
    if checked.active && checked.waitForFinAck && seg.header.ack && seg.SequenceLength() == 0 {
      PushUnhurried(checked.(waitForFinAck := false), input, false);
    } else if checked.active {
      ReplyUnhurried(checked, input, wanted || checked.waitForFinAck || seg.header.fin);
    }
  }

  /** A received segment moves the timer and the acknowledgement number through its acknowledgement only. */
  lemma ReceiveUnhurried(c: Connection, input: seq<byte>, seg: TcpSegment)
    requires Whole(c, input) && Quiet(c) && InRange(c.sender)
    ensures var s' := c.SegmentReceived(seg).sender;
            Unhurried(c.sender, s') || Unhurried(Acked(c.sender, seg), s')
  {
    var d := c.(timeSince := 0);
    if !c.active {
    } else if c.InListen() && seg.header.syn {
      PushUnhurried(d.(receiver := c.receiver.SegmentReceived(seg).0, active := true), input, true);
    } else if d.InSynSent() && seg.header.ack && seg.payload != [] {
    } else if seg.header.rst {
      if !(d.InSynSent() && !seg.header.ack) { UncleanUnhurried(d, input, false); }
    } else if !(d.InSynRecv() && !seg.header.ack) {
      ProcessUnhurried(d, input, seg);
    }
  }

  /** Every call's effect on the timer and the acknowledgement number. */
  lemma PerformUnhurried(e: Endpoint, call: Call)
    requires Whole(e.conn, e.input) && Quiet(e.conn) && InRange(e.conn.sender)
    ensures var s, s' := e.conn.sender, Perform(e, call).conn.sender;
            match call
            case Tick(ms) => Unhurried(if e.conn.active then s.Tick(ms) else s, s')
            case Receive(seg) => Unhurried(s, s') || Unhurried(Acked(s, seg), s')
            case _ => Unhurried(s, s')
  {
    match call
    case Connect => PushUnhurried(e.conn.(active := true), e.input, true);
    case Write(data) => WriteUnhurried(e.conn, e.input, data);
    case EndInput => EndUnhurried(e.conn, e.input);
    case Tick(ms) => if e.conn.active { TickUnhurried(e.conn, e.input, ms); }
    case Receive(seg) => ReceiveUnhurried(e.conn, e.input, seg);
    case Read(len) =>
  }
}
