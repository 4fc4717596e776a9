/** An endpoint that has not been opened: it stays silent until the application or a SYN opens it, and then its
    own SYN goes out first. */
module Listening {
  import opened Base
  import opened TcpSegments
  import opened TcpReceivers
  import opened TcpSenders
  import opened TcpConnections
  import opened ConnectionInvariants
  import opened SenderOutcomes

  /** Nothing has been sent, nothing is queued, and nothing has come. */
  ghost predicate Unstarted(c: Connection) {
    && !c.receiver.synSet && !c.receiver.Ended() && c.segmentsOut == [] && !c.needSendRst
    && var s := c.sender;
       !s.synFlag && s.nextSeqno == 0 && s.outstands == map[] && s.segmentsOut == [] && s.retransmitCount == 0
  }

  /** Connecting, writing something, and receiving a SYN open an endpoint. */
  predicate Opens(call: Call) {
    call.Connect? || (call.Write? && call.data != []) || (call.Receive? && call.seg.header.syn)
  }

  lemma NothingToPush(c: Connection)
    requires Unstarted(c)
    ensures c.PushSegmentsOut(false) == c && c.CleanShutdown() == c
  {
  }

  lemma AckTakesWindow(s: Sender, number: uint32, window: uint16)
    requires s.nextSeqno == 0
    ensures s.AckReceived(number, window).0 == s.(windowSize := window)
  {
  }

  lemma ProcessedUnstarted(c: Connection, seg: TcpSegment)
    requires Unstarted(c) && !seg.header.syn
    ensures Unstarted(Process(c, seg))
  {
    hide Connection.PushSegmentsOut, Connection.CleanShutdown, Sender.AckReceived;
    AckTakesWindow(c.sender, seg.header.ackno, seg.header.win);
    var taken := TakeIn(c, seg).0;
    assert Unstarted(taken);
    NothingToPush(taken);
    NothingToPush(taken.(waitForFinAck := false));
  }

  lemma StaysUnstarted(e: Endpoint, call: Call)
    requires Unstarted(e.conn) && !Opens(call)
    ensures Unstarted(Perform(e, call).conn)
  {
    hide Connection.PushSegmentsOut, Connection.CleanShutdown, Process, Sender.FillWindow;
    var c := e.conn;
    match call
    case EndInput => NothingToPush(c.(sender := EndStream(c.sender), waitForFinAck := true));
    case Tick(ms) => NothingToPush(PassTime(c, ms));
    case Receive(seg) => ProcessedUnstarted(c.(timeSince := 0), seg);
    case _ =>
  }

  /** Over every run without a call that opens the endpoint, whatever else arrives and however the time passes:
      nothing is sent. */
  lemma {:induction false} SilentUntilOpened(setup: Setup, calls: seq<Call>)
    requires forall call :: call in calls ==> !Opens(call)
    ensures Unstarted(RunCalls(Fresh(setup), calls).conn)
    ensures calls != [] ==>
              Perform(RunCalls(Fresh(setup), calls[..|calls| - 1]), calls[|calls| - 1]).conn.segmentsOut == []
    decreases |calls|
  {
    if calls != [] {
      var earlier, call := calls[..|calls| - 1], calls[|calls| - 1];
      assert call in calls && forall other :: other in earlier ==> other in calls;
      SilentUntilOpened(setup, earlier);
      StaysUnstarted(RunCalls(Fresh(setup), earlier), call);
    }
  }

  /** The SYN, which acknowledges the peer's if that has come. */
  function OwnSyn(isn: uint32, r: Receiver): TcpSegment {
    var h := DEFAULT_HEADER.(seqno := isn, syn := true);
    TcpSegment(if r.synSet then h.(ack := true, ackno := r.ackno, win := r.WindowSize() % U16) else h, [])
  }

  lemma PushedSyn(c: Connection)
    requires c.sender.segmentsOut == [] && !c.sender.synFlag && c.sender.nextSeqno == 0 && c.segmentsOut == []
    requires !c.needSendRst
    ensures var d := c.PushSegmentsOut(true);
            && d.segmentsOut == [OwnSyn(c.sender.isn, c.receiver)] && d.receiver == c.receiver
            && d.sender.synFlag && d.active == c.active
  {
    FillOutcome(c.sender, true);
    DrainedIs(c.(sender := c.sender.FillWindow(true)));
  }

  /** A call that opens the endpoint sends its SYN, and before anything else. */
  lemma OpeningSendsSyn(e: Endpoint, call: Call)
    requires Unstarted(e.conn) && Opens(call) && e.conn.active
    ensures var d := Perform(e, call).conn;
            && d.segmentsOut != [] && d.segmentsOut[0] == OwnSyn(e.conn.sender.isn, d.receiver)
            && d.sender.synFlag && d.active && (!call.Write? ==> |d.segmentsOut| == 1)
  {
    hide Connection.PushSegmentsOut, Receiver.SegmentReceived, Sender.FillWindow;
    var c := e.conn;
    match call
    case Connect => PushedSyn(c.(active := true));
    case Receive(seg) => PushedSyn(c.(timeSince := 0, receiver := c.receiver.SegmentReceived(seg).0, active := true));
    case Write(data) => WrittenSyn(c, data);
    case _ =>
  }

  lemma WrittenSyn(c: Connection, data: seq<byte>)
    requires Unstarted(c) && data != []
    ensures var d := c.Write(data);
            && d.segmentsOut != [] && d.segmentsOut[0] == OwnSyn(c.sender.isn, d.receiver)
            && d.sender.synFlag && d.active == c.active
  {
    hide Pieces, Room;
    FillOutcome(WriteStream(c.sender, data), true);
    var t := WriteStream(c.sender, data).FillWindow(true);
    var w := c.(sender := t);
    FillOutcome(t, w.InSynRecv());
    DrainedIs(w.(sender := t.FillWindow(w.InSynRecv())));
  }
}
