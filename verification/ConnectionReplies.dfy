/** When a connection answers a segment, and when it stays silent. */
module ConnectionReplies {
  import opened Base
  import opened WrappingIntegers
  import opened TcpSegments
  import opened TcpReceivers
  import opened TcpSenders
  import opened TcpConnections
  import opened ConnectionInvariants

  /** A segment that tells the peer where the receiver stands. */
  predicate Acknowledges(seg: TcpSegment, r: Receiver) {
    seg.header.ack && seg.header.ackno == r.ackno && seg.header.win == r.WindowSize() % U16
  }

  /** A push sends the whole queue and what filling the window adds, in order, acknowledging. */
  lemma PushSends(c: Connection, input: seq<byte>, sendSyn: bool)
    requires Whole(c, input) && c.segmentsOut == [] && c.receiver.synSet
    ensures var out, queue := c.PushSegmentsOut(sendSyn).segmentsOut,
                              c.sender.FillWindow(sendSyn || c.InSynRecv()).segmentsOut;
            && |out| == |queue| >= |c.sender.segmentsOut|
            && (forall i :: 0 <= i < |out| ==> out[i].SequenceLength() == queue[i].SequenceLength())
            && (forall seg :: seg in out ==> Acknowledges(seg, c.receiver))
            && (forall i :: |c.sender.segmentsOut| <= i < |out| ==> out[i].SequenceLength() > 0)
    ensures c.PushSegmentsOut(sendSyn).receiver == c.receiver
  {
    var fillSyn := sendSyn || c.InSynRecv();
    FillQueues(c.sender, input, fillSyn);
    DrainedStamps(c.(sender := c.sender.FillWindow(fillSyn)));
  }

  lemma DrainedStamps(c: Connection)
    requires c.segmentsOut == [] && c.receiver.synSet
    ensures var out, queue := Drained(c).segmentsOut, c.sender.segmentsOut;
            && |out| == |queue|
            && (forall i :: 0 <= i < |out| ==> out[i].SequenceLength() == queue[i].SequenceLength())
            && (forall seg :: seg in out ==> Acknowledges(seg, c.receiver))
    ensures Drained(c).receiver == c.receiver
  {
    DrainedIs(c);
    var out, queue := Drained(c).segmentsOut, c.sender.segmentsOut;
    forall i | 0 <= i < |out|
      ensures out[i].SequenceLength() == queue[i].SequenceLength() && Acknowledges(out[i], c.receiver)
    {
      assert out[|c.segmentsOut| + i] == Stamp(queue[i], c.receiver, c.needSendRst && i == 0);
    }
  }

  lemma CleanShutdownTwice(c: Connection)
    requires c.CleanShutdown().active
    ensures c.CleanShutdown().CleanShutdown() == c.CleanShutdown()
  {
  }

  lemma ReplySends(c: Connection, input: seq<byte>)
    requires Whole(c, input) && c.segmentsOut == [] && c.receiver.synSet && c.CleanShutdown() == c && c.active
    ensures var c' := Reply(c, true);
            c'.segmentsOut != [] && (forall x :: x in c'.segmentsOut ==> Acknowledges(x, c'.receiver))
  {
    if c.sender.segmentsOut == [] {
      EmptyKeeps(c.sender, input);
      var e := c.(sender := c.sender.SendEmptySegment());
      PushSends(e, input, false);
    } else {
      PushSends(c, input, false);
    }
  }

  lemma WantedReplyIsSent(c: Connection, input: seq<byte>, seg: TcpSegment)
    requires Whole(c, input) && Quiet(c) && InRange(c.sender) && (c.receiver.synSet || seg.header.syn)
    requires TakeIn(c, seg).1 && Process(c, seg).active
    requires !(c.waitForFinAck && seg.header.ack && seg.SequenceLength() == 0)
    ensures var c' := Process(c, seg);
            c'.segmentsOut != [] && (forall x :: x in c'.segmentsOut ==> Acknowledges(x, c'.receiver))
  {
    TakeInAdvances(c, input, seg);
    var taken := TakeIn(c, seg).0;
    CleanShutdownKeeps(taken, input);
    CleanShutdownTwice(taken);
    ReplySends(taken.CleanShutdown(), input);
    assert Process(c, seg) == Reply(taken.CleanShutdown(), true);
  }

  /** The answer to the SYN of a peer that opens the connection is a SYN of our own. */
  lemma ListenerAnswers(c: Connection, input: seq<byte>, seg: TcpSegment)
    requires Whole(c, input) && Quiet(c) && c.InListen() && seg.header.syn && c.active
    ensures var c' := c.SegmentReceived(seg);
            c'.segmentsOut != [] && (forall x :: x in c'.segmentsOut ==> Acknowledges(x, c'.receiver))
  {
    var d := c.(timeSince := 0, receiver := c.receiver.SegmentReceived(seg).0);
    PushSends(d, input, true);
    assert c.SegmentReceived(seg) == d.PushSegmentsOut(true);
  }

  /** Once the peer's SYN is in, or with it, every segment that occupies sequence space and passes the early
      returns is answered, unless it closes the connection, by a segment with the current acknowledgement. */
  lemma SequenceSpaceIsAcknowledged(c: Connection, input: seq<byte>, seg: TcpSegment)
    requires Whole(c, input) && Quiet(c) && InRange(c.sender) && (c.receiver.synSet || seg.header.syn)
    requires HandedOver(c, seg) && seg.SequenceLength() > 0 && c.SegmentReceived(seg).active
    ensures var c' := c.SegmentReceived(seg);
            c'.segmentsOut != [] && (forall x :: x in c'.segmentsOut ==> Acknowledges(x, c'.receiver))
  {
    if c.InListen() {
      ListenerAnswers(c, input, seg);
    } else {
      var d := c.(timeSince := 0);
      assert c.SegmentReceived(seg) == Process(d, seg);
      WantedReplyIsSent(d, input, seg);
    }
  }

  /** The acknowledgement that an endpoint with nothing to say sends to one that has heard everything. */
  predicate BareAck(c: Connection, seg: TcpSegment) {
    && seg.header.ack && !seg.header.syn && !seg.header.fin && !seg.header.rst && seg.payload == []
    && seg.header.seqno == c.receiver.ackno
    && Unwrap(seg.header.ackno, c.sender.isn, c.sender.ackno) <= c.sender.nextSeqno
  }

  lemma BareAckCallsForNothing(c: Connection, seg: TcpSegment)
    requires c.receiver.synSet && BareAck(c, seg)
    ensures !TakeIn(c, seg).1
  {
    var r := c.receiver;
    assert SegStart(r, seg) == WindowStart(r);
    assert r.SegmentReceived(seg).1;
    assert (r.ackno - 1) % U32 != r.ackno;
  }

  lemma TakenBareAck(c: Connection, input: seq<byte>, seg: TcpSegment)
    requires Whole(c, input) && Quiet(c) && InRange(c.sender) && c.receiver.synSet && BareAck(c, seg)
    ensures var t := TakeIn(c, seg).0;
            && Whole(t, input) && t.segmentsOut == [] && t.receiver.synSet
            && t.sender == c.sender.AckReceived(seg.header.ackno, seg.header.win).0
            && (forall i :: 0 <= i < |t.sender.segmentsOut| ==> t.sender.segmentsOut[i].SequenceLength() > 0)
  {
    TakeInAdvances(c, input, seg);
    AckQueues(c.sender, input, seg.header.ackno, seg.header.win);
  }

  /** What a bare ACK leads to: nothing, or a plain push of what the sender now has to send. */
  lemma BareAckPushes(c: Connection, seg: TcpSegment)
    requires c.receiver.synSet && BareAck(c, seg)
    ensures var checked := TakeIn(c, seg).0.CleanShutdown();
            || Process(c, seg) == checked
            || Process(c, seg) == checked.(waitForFinAck := false).PushSegmentsOut(false)
            || Process(c, seg) == checked.PushSegmentsOut(false)
  {
    BareAckCallsForNothing(c, seg);
  }

  lemma PushCarries(c: Connection, input: seq<byte>)
    requires Whole(c, input) && c.segmentsOut == [] && c.receiver.synSet
    requires forall i :: 0 <= i < |c.sender.segmentsOut| ==> c.sender.segmentsOut[i].SequenceLength() > 0
    ensures forall x :: x in c.PushSegmentsOut(false).segmentsOut ==> x.SequenceLength() > 0
    ensures |c.PushSegmentsOut(false).segmentsOut| == |c.sender.FillWindow(c.InSynRecv()).segmentsOut|
  {
    PushSends(c, input, false);
    FillQueues(c.sender, input, c.InSynRecv());
  }

  /** A bare ACK at the expected number never causes an empty reply: whatever goes out carries something. */
  lemma BareAckGetsNoEmptyReply(c: Connection, input: seq<byte>, seg: TcpSegment)
    requires Whole(c, input) && Quiet(c) && InRange(c.sender) && c.active && c.receiver.synSet && BareAck(c, seg)
    ensures forall x :: x in c.SegmentReceived(seg).segmentsOut ==> x.SequenceLength() > 0
    ensures c.SegmentReceived(seg).segmentsOut == [] ||
            |c.SegmentReceived(seg).segmentsOut| ==
            |c.sender.AckReceived(seg.header.ackno, seg.header.win).0
              .FillWindow(TakeIn(c.(timeSince := 0), seg).0.InSynRecv()).segmentsOut|
  {
    var d := c.(timeSince := 0);
    assert c.SegmentReceived(seg) == Process(d, seg);
    TakenBareAck(d, input, seg);
    BareAckPushes(d, seg);
    var taken := TakeIn(d, seg).0;
    CleanShutdownKeeps(taken, input);
    var checked := taken.CleanShutdown();
    PushCarries(checked, input);
    PushCarries(checked.(waitForFinAck := false), input);
    assert checked.InSynRecv() == taken.InSynRecv() == checked.(waitForFinAck := false).InSynRecv();
  }

  /** Nothing is left to send: the stream is drained, and its end is either sent or not yet announced. */
  predicate Idle(s: Sender) {
    s.synFlag && s.stream.buffer == [] && (s.finFlag || !s.stream.ended)
  }

  lemma IdleFillSendsNothing(s: Sender, sendSyn: bool)
    requires Idle(s)
    ensures s.FillWindow(sendSyn) == s
  {
    if !s.finFlag && Room(s) != 0 {
      assert Chunk(s) == [];
      EmptyChunk(s);
    }
  }

  lemma IdleAckSendsNothing(s: Sender, input: seq<byte>, number: uint32, window: uint16)
    requires Sound(s) && Truthful(s, input) && s.segmentsOut == [] && InRange(s) && Idle(s)
    ensures Idle(s.AckReceived(number, window).0) && s.AckReceived(number, window).0.segmentsOut == []
  {
    var absolute := Unwrap(number, s.isn, s.ackno);
    if s.ackno < absolute <= s.nextSeqno {
      AfterPopKeeps(s, input, absolute, window);
      IdleFillSendsNothing(AfterPop(s, absolute, window), true);
    }
  }

  /** So an idle endpoint lets a bare ACK go unanswered, and two idle endpoints fall silent. */
  lemma IdleEndpointStaysSilent(c: Connection, input: seq<byte>, seg: TcpSegment)
    requires Whole(c, input) && Quiet(c) && InRange(c.sender) && c.active && c.receiver.synSet
    requires BareAck(c, seg) && Idle(c.sender)
    ensures c.SegmentReceived(seg).segmentsOut == []
  {
    BareAckGetsNoEmptyReply(c, input, seg);
    IdleAckSendsNothing(c.sender, input, seg.header.ackno, seg.header.win);
    IdleFillSendsNothing(c.sender.AckReceived(seg.header.ackno, seg.header.win).0,
                         TakeIn(c.(timeSince := 0), seg).0.InSynRecv());
  }

  /** An empty segment just below the window, a keep-alive probe, is always answered. */
  lemma KeepAliveIsAnswered(c: Connection, input: seq<byte>, seg: TcpSegment)
    requires Whole(c, input) && Quiet(c) && InRange(c.sender) && c.active && c.receiver.synSet
    requires seg.payload == [] && !seg.header.syn && !seg.header.fin && seg.header.seqno == (c.receiver.ackno - 1) % U32
    requires PassesEarlyReturns(c, seg) && !(c.waitForFinAck && seg.header.ack) && c.SegmentReceived(seg).active
    ensures var c' := c.SegmentReceived(seg);
            c'.segmentsOut != [] && (forall x :: x in c'.segmentsOut ==> Acknowledges(x, c'.receiver))
  {
    var d := c.(timeSince := 0);
    assert c.SegmentReceived(seg) == Process(d, seg);
    WantedReplyIsSent(d, input, seg);
  }

  /** The number just below the window is not in it. */
  lemma OneBelow(k: nat, a: nat, isn: uint32)
    requires a <= k < a + U32 - 1
    ensures Wrap(k, isn) != (Wrap(a, isn) - 1) % U32
  {
    hide Wrap;
    OtherResidue(a + isn - 1, k - a + 1);
    WrapIs(k, isn);
    WrapIs(a, isn);
    BeforeResidue(a + isn);
  }

  lemma WrapIs(n: nat, isn: uint32)
    ensures Wrap(n, isn) == (n + isn) % U32
  {
  }

  lemma BeforeResidue(x: nat)
    ensures (x % U32 - 1) % U32 == (x - 1) % U32
  {
  }

  lemma OtherResidue(y: int, m: int)
    requires 0 < m < U32
    ensures (y + m) % U32 != y % U32
  {
  }

  lemma EmptyCallsForReplyIff(c: Connection, seg: TcpSegment, k: nat, a: nat)
    requires c.receiver.synSet && !seg.header.syn && !seg.header.fin && seg.payload == []
    requires Placed(c.receiver, seg, k, a)
    ensures TakeIn(c, seg).1 <==>
              || !(a <= k < a + Max(c.receiver.WindowSize(), 1))
              || (seg.header.ack && Unwrap(seg.header.ackno, c.sender.isn, c.sender.ackno) > c.sender.nextSeqno)
  {
    VerdictIff(c.receiver, seg, k, a);
    if a <= k < a + Max(c.receiver.WindowSize(), 1) && IsKeepAlive(c.receiver, seg) {
      OneBelow(k, a, c.receiver.isn);
    }
  }

  /** An endpoint with nothing to send answers an empty segment if and only if it lies outside the window, of which a
      closed window still has one number, or acknowledges what was never sent; with the current acknowledgement. */
  lemma EmptyIsAnsweredIff(c: Connection, input: seq<byte>, seg: TcpSegment, k: nat, a: nat)
    requires Whole(c, input) && Quiet(c) && InRange(c.sender) && c.active && c.receiver.synSet && Idle(c.sender)
    requires !seg.header.syn && !seg.header.fin && seg.payload == [] && Placed(c.receiver, seg, k, a)
    requires PassesEarlyReturns(c, seg) && !c.waitForFinAck && c.SegmentReceived(seg).active
    ensures var c' := c.SegmentReceived(seg);
            && (c'.segmentsOut != [] <==>
                  || !(a <= k < a + Max(c.receiver.WindowSize(), 1))
                  || (seg.header.ack && Unwrap(seg.header.ackno, c.sender.isn, c.sender.ackno) > c.sender.nextSeqno))
            && (forall x :: x in c'.segmentsOut ==> Acknowledges(x, c'.receiver))
  {
    var d := c.(timeSince := 0);
    assert c.SegmentReceived(seg) == Process(d, seg);
    EmptyCallsForReplyIff(d, seg, k, a);
    if TakeIn(d, seg).1 {
      WantedReplyIsSent(d, input, seg);
    } else {
      UnwantedStaysSilent(d, input, seg);
    }
  }

  lemma UnwantedStaysSilent(c: Connection, input: seq<byte>, seg: TcpSegment)
    requires Whole(c, input) && Quiet(c) && InRange(c.sender) && c.receiver.synSet && Idle(c.sender)
    requires !c.waitForFinAck && !TakeIn(c, seg).1
    ensures Process(c, seg).segmentsOut == []
  {
    hide Sender.AckReceived, Receiver.SegmentReceived, IsKeepAlive, Sound, Idle, Connection.PushSegmentsOut,
         Connection.InSynRecv;
    TakeInAdvances(c, input, seg);
    var taken := TakeIn(c, seg).0;
    if seg.header.ack { IdleAckSendsNothing(c.sender, input, seg.header.ackno, seg.header.win); }
    IdlePushesNothing(taken.CleanShutdown());
  }

  lemma IdlePushesNothing(c: Connection)
    requires Idle(c.sender) && c.sender.segmentsOut == []
    ensures c.PushSegmentsOut(false) == c
  {
    IdleFillSendsNothing(c.sender, c.InSynRecv());
  }
}
