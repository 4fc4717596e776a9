/** The three-way handshake as a run: from any two fresh endpoints to a connection established both ways. */
module Handshake {
  import opened Base
  import opened WrappingIntegers
  import opened TcpSegments
  import opened TcpReceivers
  import opened TcpSenders
  import opened TcpConnections
  import opened ConnectionInvariants
  import opened ConnectionReplies
  import opened EndToEnd

  function Syn(isn: uint32): TcpSegment {
    TcpSegment(DEFAULT_HEADER.(syn := true, seqno := isn), [])
  }

  // ----- The senders -----

  /** Only the SYN has been sent. */
  function SynSender(s: Setup): Sender {
    NewSender(s.sendCapacity, s.timeout, s.isn)
      .(nextSeqno := 1, outstands := map[0 := Syn(s.isn)], flightBytes := 1, timerStart := true, synFlag := true)
  }

  /** The SYN has been acknowledged, with this window. */
  function OpenSender(s: Setup, window: uint16): Sender {
    NewSender(s.sendCapacity, s.timeout, s.isn).(nextSeqno := 1, ackno := 1, windowSize := window, synFlag := true)
  }

  /** The peer's SYN has been taken in. */
  function OpenReceiver(s: Setup, peerIsn: uint32): Receiver {
    EmptyReceiver(s.receiveCapacity).(synSet := true, isn := peerIsn, ackno := Wrap(1, peerIsn))
  }

  lemma SynWraps(isn: uint32)
    ensures Wrap(0, isn) == isn
  {
  }

  lemma FirstSend(s: Setup)
    ensures NewSender(s.sendCapacity, s.timeout, s.isn).FillWindow(true) == SynSender(s).(segmentsOut := [Syn(s.isn)])
  {
    SynWraps(s.isn);
    assert map[][0 := Syn(s.isn)] == map[0 := Syn(s.isn)];
  }

  lemma SynAcknowledged(s: Setup, window: uint16)
    ensures SynSender(s).AckReceived(Wrap(1, s.isn), window) == (OpenSender(s, window), true)
  {
    UnwrapOfWrap(1, s.isn, 0);
    SynWraps(s.isn);
    UnwrapOfWrap(0, s.isn, 1);
    var t := SynSender(s).(windowSize := window, ackno := 1);
    var m := t.outstands;
    assert m.Keys == {0} && MinKey(m) == 0;
    assert FirstIsAcked(t);
    assert m - {0} == map[];
    assert PopFirst(t).outstands.Keys == {};
    assert SettleTimer(PopAcked(t)) == OpenSender(s, window);
    IdleFillSendsNothing(OpenSender(s, window), true);
  }

  // ----- The receivers -----

  lemma SynTaken(s: Setup, seg: TcpSegment)
    requires seg.header.syn && !seg.header.fin && seg.payload == []
    ensures EmptyReceiver(s.receiveCapacity).SegmentReceived(seg) == (OpenReceiver(s, seg.header.seqno), true)
  {
    var isn := seg.header.seqno;
    var r := EmptyReceiver(s.receiveCapacity).(isn := isn, ackno := isn, synSet := true);
    SynWraps(isn);
    UnwrapOfWrap(0, isn, 0);
    assert SegStart(r, seg) == 0 && WindowStart(r) == 0 && PayloadEnd(r, seg) == 0;
    EmptyPush(r.reassembler, StreamIndex(r, seg));
  }

  lemma AckTaken(s: Setup, seg: TcpSegment, isn: uint32)
    requires !seg.header.syn && !seg.header.fin && seg.payload == [] && seg.header.seqno == Wrap(1, isn)
    ensures OpenReceiver(s, isn).SegmentReceived(seg) == (OpenReceiver(s, isn), true)
  {
    var r := OpenReceiver(s, isn);
    UnwrapOfWrap(1, isn, 0);
    assert SegStart(r, seg) == 1 && WindowStart(r) == 1 && PayloadEnd(r, seg) == 1;
    EmptyPush(r.reassembler, StreamIndex(r, seg));
  }

  // ----- The connections -----

  /** Before the peer's SYN, or after it. */
  function SynSentConnection(s: Setup): Connection {
    Fresh(s).conn.(sender := SynSender(s))
  }

  function SynReceivedConnection(s: Setup, peer: Setup): Connection {
    SynSentConnection(s).(receiver := OpenReceiver(s, peer.isn))
  }

  function Established(s: Setup, peer: Setup): Connection {
    Fresh(s).conn.(sender := OpenSender(s, peer.receiveCapacity % U16), receiver := OpenReceiver(s, peer.isn))
  }

  function SynAck(s: Setup, peer: Setup): TcpSegment {
    Stamp(Syn(s.isn), OpenReceiver(s, peer.isn), false)
  }

  function LastAck(s: Setup, peer: Setup): TcpSegment {
    Stamp(TcpSegment(DEFAULT_HEADER.(seqno := Wrap(1, s.isn)), []), OpenReceiver(s, peer.isn), false)
  }

  lemma SingleDrained(c: Connection, seg: TcpSegment)
    requires c.sender.segmentsOut == [seg] && c.segmentsOut == [] && !c.needSendRst
    ensures Drained(c) == c.(sender := TakeQueue(c.sender), segmentsOut := [Stamp(seg, c.receiver, false)])
  {
    assert [seg][1..] == [] && [] + [Stamp(seg, c.receiver, false)] == [Stamp(seg, c.receiver, false)];
    assert Drained(MoveFirst(c)) == MoveFirst(c);
  }

  lemma SynGoesOut(s: Setup, r: Receiver)
    ensures var c := Fresh(s).conn.(receiver := r);
            c.Connect() == c.(sender := SynSender(s), segmentsOut := [Stamp(Syn(s.isn), r, false)])
  {
    var c := Fresh(s).conn.(receiver := r);
    FirstSend(s);
    SingleDrained(c.(sender := SynSender(s).(segmentsOut := [Syn(s.isn)])), Syn(s.isn));
  }

  lemma PassiveOpen(s: Setup, peer: Setup)
    ensures Fresh(s).conn.SegmentReceived(Syn(peer.isn))
            == SynReceivedConnection(s, peer).(segmentsOut := [SynAck(s, peer)])
  {
    SynTaken(s, Syn(peer.isn));
    SynGoesOut(s, OpenReceiver(s, peer.isn));
  }

  lemma SynIsOutstanding(c: Connection, s: Setup)
    requires c.sender == SynSender(s)
    ensures c.InSynSent() && (c.InSynRecv() <==> c.receiver.synSet && !c.receiver.Ended())
  {
    assert c.sender.outstands.Keys == {0} && MinKey(c.sender.outstands) == 0;
  }

  lemma OpenPushesNothing(c: Connection, s: Setup, window: uint16)
    requires c.sender == OpenSender(s, window)
    ensures c.PushSegmentsOut(false) == c
  {
    IdleFillSendsNothing(c.sender, false);
  }

  lemma ActiveOpen(s: Setup, peer: Setup)
    ensures SynSentConnection(s).SegmentReceived(SynAck(peer, s))
            == Established(s, peer).(segmentsOut := [LastAck(s, peer)])
  {
    var c, seg := SynSentConnection(s), SynAck(peer, s);
    SynIsOutstanding(c, s);
    SynAcknowledged(s, seg.header.win);
    SynTaken(s, seg);
    var e := Established(s, peer);
    assert TakeIn(c, seg) == (e, true);
    assert e.CleanShutdown() == e;
    assert c.SegmentReceived(seg) == Reply(e, true);
    var empty := TcpSegment(DEFAULT_HEADER.(seqno := Wrap(1, s.isn)), []);
    var replied := e.(sender := e.sender.SendEmptySegment());
    assert replied.sender.segmentsOut == [empty];
    IdleFillSendsNothing(replied.sender, false);
    SingleDrained(replied, empty);
  }

  lemma LastAckArrives(s: Setup, peer: Setup)
    ensures SynReceivedConnection(s, peer).SegmentReceived(LastAck(peer, s)) == Established(s, peer)
  {
    var c, seg := SynReceivedConnection(s, peer), LastAck(peer, s);
    SynIsOutstanding(c, s);
    SynAcknowledged(s, seg.header.win);
    AckTaken(s, seg, peer.isn);
    var e := Established(s, peer);
    assert !IsKeepAlive(c.receiver, seg);
    assert TakeIn(c, seg) == (e, false);
    assert e.CleanShutdown() == e;
    OpenPushesNothing(e, s, peer.receiveCapacity % U16);
  }

  // ----- The run -----

  /** The connection attempt, the SYN, the SYN with its acknowledgement, and the acknowledgement of that. */
  function Turns(a: Setup, b: Setup): seq<Turn> {
    [Turn(true, Local(Connect)),
     Turn(false, Deliver(Packet(Syn(a.isn), 0, 0))),
     Turn(true, Deliver(Packet(SynAck(b, a), 0, 1))),
     Turn(false, Deliver(Packet(LastAck(a, b), 1, 1)))]
  }

  function Idling(c: Connection): Endpoint {
    Endpoint(c, [], [])
  }

  function SynSentNet(a: Setup, b: Setup): Net {
    Net(Idling(SynSentConnection(a)), Fresh(b), {Packet(Syn(a.isn), 0, 0)}, {})
  }

  function SynReceivedNet(a: Setup, b: Setup): Net {
    SynSentNet(a, b).(b := Idling(SynReceivedConnection(b, a)), fromB := {Packet(SynAck(b, a), 0, 1)})
  }

  function HalfOpenNet(a: Setup, b: Setup): Net {
    SynReceivedNet(a, b)
      .(a := Idling(Established(a, b)), fromA := {Packet(Syn(a.isn), 0, 0), Packet(LastAck(a, b), 1, 1)})
  }

  function EstablishedNet(a: Setup, b: Setup): Net {
    HalfOpenNet(a, b).(b := Idling(Established(b, a)))
  }

  lemma OnePacket(c: Connection, seg: TcpSegment)
    requires c.segmentsOut == [seg]
    ensures var pos := Unwrap(seg.header.seqno, c.sender.isn, c.sender.nextSeqno);
            Packets(c) == {Packet(seg, pos, WindowStart(c.receiver))}
  {
    assert forall x :: x in c.segmentsOut <==> x == seg;
  }

  predicate Expected(n: Net, t: Turn) {
    Allowed(n, t) && HarmlessTurn(n, t)
  }

  lemma FirstTurn(a: Setup, b: Setup)
    ensures Expected(Start(a, b), Turns(a, b)[0]) && Take(Start(a, b), Turns(a, b)[0]) == SynSentNet(a, b)
  {
    var c := Fresh(a).conn;
    SynGoesOut(a, c.receiver);
    OnePacket(c.Connect(), Syn(a.isn));
    SynWraps(a.isn);
    UnwrapOfWrap(0, a.isn, 1);
    UnwrapOfWrap(0, 0, 0);
  }

  lemma SecondTurn(a: Setup, b: Setup)
    ensures Expected(SynSentNet(a, b), Turns(a, b)[1]) && Take(SynSentNet(a, b), Turns(a, b)[1]) == SynReceivedNet(a, b)
  {
    hide Connection.SegmentReceived, Packets;
    PassiveOpen(b, a);
    OnePacket(Fresh(b).conn.SegmentReceived(Syn(a.isn)), SynAck(b, a));
    SynWraps(b.isn);
    UnwrapOfWrap(0, b.isn, 1);
    UnwrapOfWrap(1, a.isn, 0);
  }

  lemma ThirdTurn(a: Setup, b: Setup)
    ensures Expected(SynReceivedNet(a, b), Turns(a, b)[2])
    ensures Take(SynReceivedNet(a, b), Turns(a, b)[2]) == HalfOpenNet(a, b)
  {
    hide SynAck, Connection.Tick, Packets, Connection.Connect, Syn;
    assert After(SynReceivedNet(a, b).a, Turns(a, b)[2].step)
           == Idling(Established(a, b).(segmentsOut := [LastAck(a, b)])) by { ActiveOpen(a, b); }
    OnePacket(Established(a, b).(segmentsOut := [LastAck(a, b)]), LastAck(a, b));
    UnwrapOfWrap(1, a.isn, 1);
    UnwrapOfWrap(1, b.isn, 0);
  }

  /** Without a FIN, noted or arriving, nothing is harmful. */
  lemma NoFinNoHarm(e: Endpoint, step: Step, length: nat)
    requires !e.conn.receiver.finSet && !e.conn.receiver.reassembler.eof
    requires !step.Local? ==> !CallOf(step).seg.header.fin
    ensures Harmless(e, step, length)
  {
  }

  lemma FourthTurn(a: Setup, b: Setup)
    ensures Expected(HalfOpenNet(a, b), Turns(a, b)[3])
    ensures Take(HalfOpenNet(a, b), Turns(a, b)[3]) == EstablishedNet(a, b)
  {
    hide WindowStart, Unwrap;
    var n, t := HalfOpenNet(a, b), Turns(a, b)[3];
    assert After(n.b, t.step) == Idling(Established(b, a)) by { LastAckArrives(b, a); }
    assert Packets(Established(b, a)) == {};
    assert Possible(n.b, n.fromA, t.step);
    NoFinNoHarm(n.b, t.step, n.a.conn.sender.stream.readCount);
  }

  /** From any two fresh endpoints, with any capacities, timeouts and initial sequence numbers, the four
      turns of the handshake are a run of the system, and they establish the connection at both ends: each
      SYN is taken in and acknowledged, nothing is in flight, nothing more is sent. */
  lemma HandshakeEstablishes(a: Setup, b: Setup)
    ensures AllAllowed(Start(a, b), Turns(a, b)) && AllHarmless(Start(a, b), Turns(a, b))
    ensures var n := RunFrom(Start(a, b), Turns(a, b));
            && n.a.conn.active && n.b.conn.active
            && n.a.conn.receiver.synSet && n.a.conn.receiver.isn == b.isn && WindowStart(n.a.conn.receiver) == 1
            && n.b.conn.receiver.synSet && n.b.conn.receiver.isn == a.isn && WindowStart(n.b.conn.receiver) == 1
            && n.a.conn.sender.synFlag && n.a.conn.sender.ackno == 1 && n.a.conn.sender.outstands == map[]
            && n.b.conn.sender.synFlag && n.b.conn.sender.ackno == 1 && n.b.conn.sender.outstands == map[]
            && n.a.conn.sender.windowSize == b.receiveCapacity % U16
            && n.b.conn.sender.windowSize == a.receiveCapacity % U16
            && n.a.conn.sender.segmentsOut == [] && n.b.conn.sender.segmentsOut == []
    ensures RunFrom(Start(a, b), Turns(a, b)) == EstablishedNet(a, b)
  {
    var n, turns := Start(a, b), Turns(a, b);
    assert turns[..0] == [] && turns[..4] == turns;
    FirstTurn(a, b);
    RunMore(n, turns, 0);
    SecondTurn(a, b);
    RunMore(n, turns, 1);
    ThirdTurn(a, b);
    RunMore(n, turns, 2);
    FourthTurn(a, b);
    RunMore(n, turns, 3);
    UnwrapOfWrap(1, a.isn, 0);
    UnwrapOfWrap(1, b.isn, 0);
  }
}
