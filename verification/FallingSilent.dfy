/** Two endpoints with nothing to say fall silent: each old packet draws at most one answer, and the answers
    draw none. */
module FallingSilent {
  import opened Base
  import opened WrappingIntegers
  import opened TcpSegments
  import opened TcpReceivers
  import opened TcpSenders
  import opened TcpConnections
  import opened ConnectionInvariants
  import opened ConnectionReplies
  import opened Conversations
  import opened EndToEnd
  import Handshake

  /** Nothing is left to send and nothing is in flight. */
  predicate Resting(e: Endpoint) {
    e.conn.receiver.synSet && Idle(e.conn.sender) && e.conn.sender.flightBytes == 0 && !e.conn.needSendRst
  }

  /** A bare acknowledgement that the peer has sent from where it stands now. */
  predicate IsLastAck(p: Packet, peer: Endpoint) {
    && p.seg.header.ack && !p.seg.header.syn && !p.seg.header.fin && !p.seg.header.rst && p.seg.payload == []
    && p.pos == peer.conn.sender.nextSeqno
  }

  /** Time passes, the application reads, or the network delivers what it has. */
  predicate Undisturbed(step: Step) {
    match step
    case Local(call) => call.Tick? || call.Read?
    case Deliver(_) => true
    case DeliverForged(_, _, _, _) => false
  }

  /** The number of packets that the step may draw: one for a packet other than a last acknowledgement. */
  function Draws(step: Step, peer: Endpoint): nat {
    if step.Deliver? && !IsLastAck(step.packet, peer) then 1 else 0
  }

  // ----- One endpoint -----

  /** All that x has sent has come, and y says so. */
  lemma AllIsAcknowledged(x: Endpoint, out: set<Packet>, y: Endpoint, outY: set<Packet>)
    requires Channel(x, out, y) && AcksCovered(y, outY, x)
    requires x.conn.sender.flightBytes == 0 && x.conn.sender.synFlag && y.conn.receiver.synSet
    ensures var r, s := y.conn.receiver, x.conn.sender;
            && WindowStart(r) == AckLimit(r) == s.nextSeqno && r.Written() == s.stream.readCount
            && r.ackno == Wrap(s.nextSeqno, s.isn)
  {
    var r, s := y.conn.receiver, x.conn.sender;
    FlightIsSum(s);
    TakenIsSmall(x);
    AssembledBound(r.reassembler, y.read, TakenOf(x));
    WrapOfUnwrap(r.ackno, r.isn, r.checkpoint);
  }

  /** What any packet of the peer is to a resting endpoint: nothing new. */
  lemma NothingNew(x: Endpoint, outX: set<Packet>, y: Endpoint, outY: set<Packet>, p: Packet)
    requires Channel(x, outX, y) && Channel(y, outY, x) && AcksCovered(y, outY, x) && AcksCovered(x, outX, y)
    requires Resting(x) && Resting(y) && Possible(y, outX, Deliver(p))
    ensures Harmless(y, Deliver(p), x.conn.sender.stream.readCount)
    ensures p.seg.header.ack ==>
              Unwrap(p.seg.header.ackno, y.conn.sender.isn, y.conn.sender.ackno) <= y.conn.sender.ackno
    ensures IsLastAck(p, x) ==> BareAck(y.conn, p.seg)
  {
    AllIsAcknowledged(x, outX, y, outY);
    AllIsAcknowledged(y, outY, x, outX);
    TakenIsSmall(y);
    FlightIsSum(y.conn.sender);
    assert Carries(p.seg, p.pos, x.conn.sender.isn, TakenOf(x), x.conn.sender.finFlag);
    if p.seg.header.ack { UnwrapOfWrap(p.ackPos, y.conn.sender.isn, y.conn.sender.ackno); }
  }

  lemma RestingPush(c: Connection)
    requires Idle(c.sender) && c.sender.segmentsOut == []
    ensures c.PushSegmentsOut(false) == c
  {
    IdleFillSendsNothing(c.sender, c.InSynRecv());
  }

  /** A resting endpoint goes on resting, and has at most a bare acknowledgement to send. */
  ghost predicate KeepsResting(e: Endpoint, e': Endpoint) {
    && Resting(e') && e'.conn.sender.nextSeqno == e.conn.sender.nextSeqno
    && (e'.conn.segmentsOut == [] || e'.conn.segmentsOut == [Answer(e'.conn)])
  }

  lemma ReceivedSyn(r: Receiver, seg: TcpSegment)
    requires r.synSet
    ensures r.SegmentReceived(seg).0.synSet
  {
  }

  lemma RestingProcess(c: Connection, seg: TcpSegment)
    requires c.active && !c.needSendRst && c.segmentsOut == [] && c.receiver.synSet
    requires Idle(c.sender) && c.sender.segmentsOut == []
    requires seg.header.ack ==> Unwrap(seg.header.ackno, c.sender.isn, c.sender.ackno) <= c.sender.ackno
    requires c.sender.ackno <= c.sender.nextSeqno
    ensures var d := Process(c, seg);
            && d.sender == c.sender.(windowSize := d.sender.windowSize) && !d.needSendRst && d.receiver.synSet
            && (d.segmentsOut == [] || d.segmentsOut == [Answer(d)])
  {
    hide Receiver.SegmentReceived, Connection.PushSegmentsOut, IsKeepAlive, Connection.InSynSent;
    var (taken, wanted) := TakeIn(c, seg);
    var checked := taken.CleanShutdown();
    ReceivedSyn(c.receiver, seg);
    assert checked.sender == c.sender.(windowSize := checked.sender.windowSize);
    if checked.active {
      CleanShutdownTwice(taken);
      RestingPush(checked.(waitForFinAck := false));
      ReplyIs(checked, wanted || checked.waitForFinAck || seg.header.fin);
    }
  }

  lemma RestingReceive(e: Endpoint, seg: TcpSegment)
    requires Working(e) && Resting(e)
    requires seg.header.ack ==> Unwrap(seg.header.ackno, e.conn.sender.isn, e.conn.sender.ackno) <= e.conn.sender.ackno
    ensures KeepsResting(e, Perform(e, Receive(seg)))
  {
    hide Process;
    var c := e.conn;
    FlightIsSum(c.sender);
    if c.active {
      RestingProcess(c.(timeSince := 0), seg);
    }
  }

  /** Of the last acknowledgement nothing comes. */
  lemma LastAckIsSilent(e: Endpoint, seg: TcpSegment)
    requires Working(e) && Resting(e) && BareAck(e.conn, seg)
    ensures Perform(e, Receive(seg)).conn.segmentsOut == []
  {
    hide Whole;
    if e.conn.active { IdleEndpointStaysSilent(e.conn, e.input, seg); }
  }

  lemma RestingTick(e: Endpoint, ms: nat)
    requires Working(e) && Resting(e)
    ensures KeepsResting(e, Perform(e, Call.Tick(ms))) && Perform(e, Call.Tick(ms)).conn.segmentsOut == []
  {
    var c := e.conn;
    FlightIsSum(c.sender);
    if c.active {
      var p := PassTime(c, ms);
      assert GiveUpIfExhausted(p) == p;
      RestingPush(p);
    }
  }

  // ----- Both -----

  ghost predicate RestingNet(n: Net) {
    Lossless(n) && Resting(n.a) && Resting(n.b)
  }

  lemma RestingStep(x: Endpoint, outX: set<Packet>, y: Endpoint, outY: set<Packet>, step: Step)
    requires Channel(x, outX, y) && Channel(y, outY, x) && AcksCovered(y, outY, x) && AcksCovered(x, outX, y)
    requires Resting(x) && Resting(y) && Possible(y, outX, step) && Undisturbed(step)
    ensures Harmless(y, step, x.conn.sender.stream.readCount) && KeepsResting(y, After(y, step))
    ensures Draws(step, x) == 0 ==> After(y, step).conn.segmentsOut == []
  {
    match step
    case Deliver(p) =>
      NothingNew(x, outX, y, outY, p);
      RestingReceive(y, p.seg);
      if IsLastAck(p, x) { LastAckIsSilent(y, p.seg); }
    case Local(call) =>
      if call.Tick? { RestingTick(y, call.ms); }
    case DeliverForged(_, _, _, _) =>
  }

  /** What is sent is a last acknowledgement. */
  lemma DrawnAreLast(y: Endpoint, y': Endpoint, drawn: nat)
    requires KeepsResting(y, y') && y'.conn.sender.nextSeqno <= U63
    requires drawn == 0 ==> y'.conn.segmentsOut == []
    ensures |Packets(y'.conn)| <= drawn && forall q :: q in Packets(y'.conn) ==> q.seg.header.ack && IsLastAck(q, y')
  {
    if y'.conn.segmentsOut != [] {
      AnswerIsOne(y'.conn);
      assert Packets(y'.conn) == {AnswerPacket(y'.conn)};
    }
  }

  function DrawsTurn(n: Net, t: Turn): nat {
    Draws(t.step, if t.ofA then n.b else n.a)
  }

  /** Last acknowledgements and nothing else have been added to what an endpoint has put into the network. */
  predicate Adds(e: Endpoint, out: set<Packet>, e': Endpoint, out': set<Packet>) {
    && e'.conn.sender.nextSeqno == e.conn.sender.nextSeqno && out <= out'
    && forall q :: q in out' ==> q in out || IsLastAck(q, e')
  }

  lemma AddsTwice(e: Endpoint, out: set<Packet>, e': Endpoint, out': set<Packet>, e'': Endpoint, out'': set<Packet>)
    requires Adds(e, out, e', out') && Adds(e', out', e'', out'')
    ensures Adds(e, out, e'', out'')
  {
  }

  /** From one resting state to another, with at most this many packets added. */
  ghost predicate SettlesFurther(n: Net, n': Net, drawn: nat) {
    && RestingNet(n') && Adds(n.a, n.fromA, n'.a, n'.fromA) && Adds(n.b, n.fromB, n'.b, n'.fromB)
    && |n'.fromA| + |n'.fromB| <= |n.fromA| + |n.fromB| + drawn
  }

  lemma UnionSize<T>(s: set<T>, t: set<T>)
    ensures |s + t| <= |s| + |t|
  {
    assert |s + t| == |s| + |t| - |s * t|;
  }

  lemma RestingSide(x: Endpoint, outX: set<Packet>, y: Endpoint, outY: set<Packet>, step: Step)
    requires Channel(x, outX, y) && Channel(y, outY, x) && AcksCovered(y, outY, x) && AcksCovered(x, outX, y)
    requires Resting(x) && Resting(y) && Possible(y, outX, step) && Undisturbed(step)
    ensures var y', out := After(y, step), outY + Packets(After(y, step).conn);
            && Harmless(y, step, x.conn.sender.stream.readCount) && Resting(Collected(y'))
            && Adds(y, outY, Collected(y'), out) && |out| <= |outY| + Draws(step, x)
  {
    hide Perform, Faithful, Possible;
    TakenIsSmall(y);
    hide Channel, AcksCovered, Harmless, Possible;
    RestingStep(x, outX, y, outY, step);
    DrawnAreLast(y, After(y, step), Draws(step, x));
    UnionSize(outY, Packets(After(y, step).conn));
  }

  lemma RestingTurn(n: Net, t: Turn)
    requires RestingNet(n) && Allowed(n, t) && Undisturbed(t.step)
    ensures SettlesFurther(n, Take(n, t), DrawsTurn(n, t))
  {
    hide Channel, AcksCovered, Harmless, Possible, After, IsLastAck, Draws;
    if t.ofA {
      RestingSide(n.b, n.fromB, n.a, n.fromA, t.step);
    } else {
      RestingSide(n.a, n.fromA, n.b, n.fromB, t.step);
    }
    TurnKeepsLossless(n, t);
  }

  predicate AllUndisturbed(n: Net, turns: seq<Turn>)
    decreases |turns|
  {
    turns == [] ||
    var earlier, t := turns[..|turns| - 1], turns[|turns| - 1];
    AllUndisturbed(n, earlier) && Allowed(RunFrom(n, earlier), t) && Undisturbed(t.step)
  }

  /** The number of deliveries, in a run, of packets other than last acknowledgements. */
  function Redelivered(n: Net, turns: seq<Turn>): nat
    decreases |turns|
  {
    if turns == [] then 0 else
    var earlier := turns[..|turns| - 1];
    Redelivered(n, earlier) + DrawsTurn(RunFrom(n, earlier), turns[|turns| - 1])
  }

  lemma SettlesTwice(n: Net, n': Net, n'': Net, drawn: nat, drawn': nat)
    requires SettlesFurther(n, n', drawn) && SettlesFurther(n', n'', drawn')
    ensures SettlesFurther(n, n'', drawn + drawn')
  {
    hide RestingNet, Adds;
    AddsTwice(n.a, n.fromA, n'.a, n'.fromA, n''.a, n''.fromA);
    AddsTwice(n.b, n.fromB, n'.b, n'.fromB, n''.b, n''.fromB);
  }

  /** So the conversation falls silent: whatever old packets the network still delivers, in whatever order, no
      more packets are added than old ones were redelivered, all of them last acknowledgements, which draw none. */
  lemma {:induction false} FallsSilent(n: Net, turns: seq<Turn>)
    requires RestingNet(n) && AllUndisturbed(n, turns)
    ensures SettlesFurther(n, RunFrom(n, turns), Redelivered(n, turns))
    decreases |turns|
  {
    hide SettlesFurther, RestingNet, Take, Allowed, DrawsTurn;
    if turns == [] {
      NothingAdded(n);
    } else {
      var earlier, t := turns[..|turns| - 1], turns[|turns| - 1];
      var n', drawn := RunFrom(n, earlier), Redelivered(n, earlier);
      FallsSilent(n, earlier);
      IsResting(n, n', drawn);
      RestingTurn(n', t);
      SettlesTwice(n, n', Take(n', t), drawn, DrawsTurn(n', t));
    }
  }

  lemma NothingAdded(n: Net)
    requires RestingNet(n)
    ensures SettlesFurther(n, n, 0)
  {
  }

  lemma IsResting(n: Net, n': Net, drawn: nat)
    requires SettlesFurther(n, n', drawn)
    ensures RestingNet(n')
  {
  }

  /** In particular, however often the last acknowledgements are delivered, no packet follows. */
  lemma LastAcksDrawNone(n: Net, turns: seq<Turn>)
    requires RestingNet(n) && AllUndisturbed(n, turns) && Redelivered(n, turns) == 0
    ensures var n' := RunFrom(n, turns); n'.fromA == n.fromA && n'.fromB == n.fromB
  {
    var n' := RunFrom(n, turns);
    FallsSilent(n, turns);
    SubsetSize(n.fromA, n'.fromA);
    SubsetSize(n.fromB, n'.fromB);
  }

  lemma SubsetSize<T>(s: set<T>, t: set<T>)
    requires s <= t
    ensures |s| <= |t| && (|s| == |t| ==> s == t)
  {
    assert t == s + (t - s);
  }

  /** For example, after the handshake. */
  lemma HandshakeEndsResting(a: Setup, b: Setup)
    requires WindowFits(a) && WindowFits(b)
    ensures RestingNet(RunFrom(Start(a, b), Handshake.Turns(a, b)))
  {
    hide Take;
    Handshake.HandshakeEstablishes(a, b);
    RunIsLossless(a, b, Handshake.Turns(a, b));
  }
}
