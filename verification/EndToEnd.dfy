/** Two connections and a network that loses, duplicates, delays and reorders what they send. */
module EndToEnd {
  import opened Base
  import opened WrappingIntegers
  import opened StreamReassemblers
  import opened TcpSegments
  import opened TcpReceivers
  import opened TcpSenders
  import opened TcpConnections
  import opened ConnectionInvariants

  /** A segment in the network, with the absolute numbers that its sender meant by the wire's 32 bits. */
  datatype Packet = Packet(seg: TcpSegment, pos: nat, ackPos: nat)

  /** Everything either endpoint has ever sent can still arrive, any number of times, or never. */
  datatype Net = Net(a: Endpoint, b: Endpoint, fromA: set<Packet>, fromB: set<Packet>)

  datatype Step =
    | Local(call: Call)
    | Deliver(packet: Packet)
    | DeliverForged(packet: Packet, ack: bool, number: uint32, window: uint16)

  datatype Turn = Turn(ofA: bool, step: Step)

  function Packets(c: Connection): set<Packet> {
    set seg | seg in c.segmentsOut ::
      Packet(seg, Unwrap(seg.header.seqno, c.sender.isn, c.sender.nextSeqno), WindowStart(c.receiver))
  }

  function CallOf(step: Step): Call {
    match step
    case Local(call) => call
    case Deliver(packet) => Receive(packet.seg)
    case DeliverForged(packet, ack, number, window) =>
      Receive(packet.seg.(header := packet.seg.header.(ack := ack, ackno := number, win := window)))
  }

  function After(e: Endpoint, step: Step): Endpoint {
    Perform(e, CallOf(step))
  }

  function Take(n: Net, t: Turn): Net {
    if t.ofA then
      var a := After(n.a, t.step);
      n.(a := Collected(a), fromA := n.fromA + Packets(a.conn))
    else
      var b := After(n.b, t.step);
      n.(b := Collected(b), fromB := n.fromB + Packets(b.conn))
  }

  /** What may happen at an endpoint. A delivery is of a packet from the peer, less than 2^31 away from
      where the receiving side stands; nothing else is asked of the network. */
  predicate Possible(e: Endpoint, incoming: set<Packet>, step: Step) {
    match step
    case Local(call) => !call.Receive?
    case Deliver(p) =>
      && p in incoming
      && -U31 <= p.pos - e.conn.receiver.checkpoint < U31
      && (p.seg.header.ack ==> -U31 <= p.ackPos - e.conn.sender.ackno < U31)
    case DeliverForged(p, _, _, _) =>
      && p in incoming
      && -U31 <= p.pos - e.conn.receiver.checkpoint < U31
  }

  predicate Allowed(n: Net, t: Turn) {
    && (if t.ofA then Possible(n.a, n.fromB, t.step) else Possible(n.b, n.fromA, t.step))
    && InRange(Take(n, t).a.conn.sender) && InRange(Take(n, t).b.conn.sender)
  }

  /** What is delivered neither ends the inbound stream early, of which the peer has taken `length` bytes so
      far, nor makes the receiver acknowledge more than it has taken in. */
  predicate Harmless(e: Endpoint, step: Step, length: nat) {
    !step.Local? && HandedOver(e.conn, CallOf(step).seg) ==>
      !EndsEarly(e.conn.receiver, CallOf(step).seg, length) && !Overcounts(e.conn.receiver, CallOf(step).seg)
  }

  predicate HarmlessTurn(n: Net, t: Turn) {
    if t.ofA then Harmless(n.a, t.step, n.b.conn.sender.stream.readCount)
    else Harmless(n.b, t.step, n.a.conn.sender.stream.readCount)
  }

  // ----- One direction: x sends, y receives -----

  ghost predicate Working(x: Endpoint) {
    Whole(x.conn, x.input) && Quiet(x.conn) && InRange(x.conn.sender)
  }

  ghost function TakenOf(x: Endpoint): seq<byte>
    requires Working(x)
  {
    Taken(x.conn.sender, x.input)
  }

  /** What x has put into the network are pieces of its stream. */
  ghost predicate Supplied(x: Endpoint, out: set<Packet>) {
    && Working(x)
    && forall p :: p in out ==> Carries(p.seg, p.pos, x.conn.sender.isn, TakenOf(x), x.conn.sender.finFlag)
  }

  /** And the receiver holds a faithful part of it. */
  ghost predicate Channel(x: Endpoint, out: set<Packet>, y: Endpoint) {
    && Supplied(x, out)
    && Faithful(y.conn.receiver, y.read, x.conn.sender.isn, TakenOf(x), x.conn.sender.finFlag)
  }

  /** The absolute number the receiver acknowledges. */
  function Acked(r: Receiver): nat {
    if r.synSet then WindowStart(r) else 0
  }

  /** Every acknowledgement of y's, on its way or already taken in by x, is one that y has got to. */
  ghost predicate AcksCovered(y: Endpoint, out: set<Packet>, x: Endpoint) {
    && (forall p :: p in out && p.seg.header.ack ==>
          p.seg.header.ackno == Wrap(p.ackPos, x.conn.sender.isn) && p.ackPos <= Acked(y.conn.receiver))
    && x.conn.sender.ackno <= Acked(y.conn.receiver)
  }

  lemma TakenIsSmall(x: Endpoint)
    requires Working(x)
    ensures |TakenOf(x)| == x.conn.sender.stream.readCount <= MAX_STREAM
    ensures x.conn.sender.nextSeqno <= U63
    ensures TakenOf(x) <= x.input
  {
  }

  /** The annotation of an emitted packet is the position its segment has in the stream. */
  lemma PacketPosition(e: Endpoint, p: Packet)
    requires Whole(e.conn, e.input) && InRange(e.conn.sender) && p in Packets(e.conn)
    ensures Carries(p.seg, p.pos, e.conn.sender.isn, Taken(e.conn.sender, e.input), e.conn.sender.finFlag)
    ensures StampedBy(p.seg, e.conn.receiver) && p.ackPos == WindowStart(e.conn.receiver)
  {
    var s := e.conn.sender;
    var seg :| seg in e.conn.segmentsOut &&
               p == Packet(seg, Unwrap(seg.header.seqno, s.isn, s.nextSeqno), WindowStart(e.conn.receiver));
    assert CarriesInFlight(s, seg, Taken(s, e.input));
    var k: nat :| OldestSeqno(s) <= k <= s.nextSeqno && Carries(seg, k, s.isn, Taken(s, e.input), s.finFlag);
    assert s.nextSeqno <= U63;
    UnwrapOfWrap(k, s.isn, s.nextSeqno);
  }

  lemma CollectedWhole(e: Endpoint)
    requires Whole(e.conn, e.input)
    ensures Whole(Collected(e).conn, Collected(e).input)
  {
  }

  /** A step of the sending endpoint. */
  lemma SupplyStep(x: Endpoint, out: set<Packet>, call: Call)
    requires Supplied(x, out) && InRange(Perform(x, call).conn.sender)
    ensures Supplied(Collected(Perform(x, call)), out + Packets(Perform(x, call).conn))
    ensures Evolves(x.conn.sender, x.input, Perform(x, call).conn.sender, Perform(x, call).input)
    ensures x.input <= Perform(x, call).input
  {
    var x' := Perform(x, call);
    PerformAdvances(x, call);
    CollectedWhole(x');
    var s, s' := x.conn.sender, x'.conn.sender;
    forall p | p in out + Packets(x'.conn)
      ensures Carries(p.seg, p.pos, s'.isn, Taken(s', x'.input), s'.finFlag)
    {
      if p in out {
        CarriesInExtension(p.seg, p.pos, s.isn, Taken(s, x.input), s.finFlag, Taken(s', x'.input), s'.finFlag);
      } else {
        PacketPosition(x', p);
      }
    }
  }

  lemma SenderStep(x: Endpoint, out: set<Packet>, y: Endpoint, call: Call)
    requires Channel(x, out, y) && InRange(Perform(x, call).conn.sender)
    ensures Channel(Collected(Perform(x, call)), out + Packets(Perform(x, call).conn), y)
  {
    var x' := Perform(x, call);
    SupplyStep(x, out, call);
    var s, s' := x.conn.sender, x'.conn.sender;
    TakenIsSmall(Collected(x'));
    FaithfulInExtension(y.conn.receiver, y.read, s.isn, Taken(s, x.input), s.finFlag, Taken(s', x'.input), s'.finFlag);
  }

  /** The receiver after any call: a segment taken in, a read, a failure mark, or nothing. */
  lemma ReceiverAfter(y: Endpoint, call: Call)
    requires Working(y)
    ensures var r, r' := y.conn.receiver, Perform(y, call).conn.receiver;
            if call.Read? then r' == ReadInbound(y.conn, call.len).receiver
            else if call.Receive? && HandedOver(y.conn, call.seg) then r' == r.SegmentReceived(call.seg).0
            else r' == r || r' == Failed(r)
    ensures !call.Read? ==> Perform(y, call).read == y.read
  {
    match call
    case Connect => ConnectAdvances(y.conn, y.input);
    case Write(data) => WriteAdvances(y.conn, y.input, data);
    case EndInput => EndAdvances(y.conn, y.input);
    case Tick(ms) => TickAdvances(y.conn, y.input, ms);
    case Receive(seg) => ReceiveAdvances(y.conn, y.input, seg);
    case Read(len) =>
  }

  /** The packet behind a delivery is a piece of the peer's stream, whatever its acknowledgement says. */
  lemma DeliveredCarries(x: Endpoint, out: set<Packet>, y: Endpoint, step: Step)
    requires Channel(x, out, y) && Possible(y, out, step) && !step.Local?
    ensures Carries(CallOf(step).seg, step.packet.pos, x.conn.sender.isn, TakenOf(x), x.conn.sender.finFlag)
    ensures -U31 <= step.packet.pos - y.conn.receiver.checkpoint < U31
  {
    var p := step.packet;
    assert Carries(p.seg, p.pos, x.conn.sender.isn, TakenOf(x), x.conn.sender.finFlag);
  }

  /** A segment taken in that is a piece of the stream; a read; a failure mark; or nothing. */
  ghost predicate Receives(r: Receiver, r': Receiver, seg: TcpSegment, pos: nat,
                           isn: uint32, taken: seq<byte>, finished: bool) {
    && r' == r.SegmentReceived(seg).0 && Carries(seg, pos, isn, taken, finished)
    && -U31 <= pos - r.checkpoint < U31
  }

  lemma TakesInFaithfully(r: Receiver, r': Receiver, read: seq<byte>, seg: TcpSegment, pos: nat,
                          isn: uint32, taken: seq<byte>, finished: bool)
    requires Faithful(r, read, isn, taken, finished) && Receives(r, r', seg, pos, isn, taken, finished)
    ensures Faithful(r', read, isn, taken, finished) <==> !EndsEarly(r, seg, |taken|) && !Overcounts(r, seg)
    ensures r'.Ended() && r'.Written() < |taken| <==> EndsEarly(r, seg, |taken|)
    ensures r'.synSet && WindowStart(r') > AckLimit(r') <==> Overcounts(r, seg)
    ensures Acked(r') >= Acked(r)
  {
    ReceivedFaithfulIff(r, read, seg, pos, isn, taken, finished);
    EndsEarlyIff(r, read, seg, pos, isn, taken, finished);
    OvercountsIff(r, read, seg, pos, isn, taken, finished);
    ReceivedAdvances(r, read, seg, pos, isn, taken, finished);
  }

  lemma NothingTakenIn(r: Receiver, r': Receiver, read: seq<byte>, isn: uint32, taken: seq<byte>, finished: bool)
    requires Faithful(r, read, isn, taken, finished) && (r' == r || r' == Failed(r))
    ensures Faithful(r', read, isn, taken, finished) && Acked(r') == Acked(r)
  {
    ErrorFaithful(r, read, isn, taken, finished);
  }

  lemma ReadKeepsFaith(y: Endpoint, len: nat, isn: uint32, taken: seq<byte>, finished: bool)
    requires Faithful(y.conn.receiver, y.read, isn, taken, finished)
    ensures var y' := Perform(y, Call.Read(len));
            && Faithful(y'.conn.receiver, y'.read, isn, taken, finished)
            && Acked(y'.conn.receiver) == Acked(y.conn.receiver)
  {
    ReadFaithful(y.conn.receiver, y.read, len, isn, taken, finished);
  }

  /** What can be seen to have gone wrong at a receiver whose peer has taken `length` bytes so far. */
  predicate Faulty(r: Receiver, length: nat) {
    || (r.Ended() && r.Written() < length)
    || (r.synSet && WindowStart(r) > AckLimit(r))
  }

  lemma FaithfulIsNotFaulty(r: Receiver, read: seq<byte>, isn: uint32, taken: seq<byte>, finished: bool)
    requires Faithful(r, read, isn, taken, finished)
    ensures !Faulty(r, |taken|)
  {
  }

  lemma DeliveryOutcome(x: Endpoint, out: set<Packet>, y: Endpoint, step: Step)
    requires Channel(x, out, y) && Working(y) && Possible(y, out, step)
    requires !step.Local? && HandedOver(y.conn, CallOf(step).seg)
    ensures var y', s := After(y, step), x.conn.sender;
            var harmless := Harmless(y, step, s.stream.readCount);
            && (Faithful(y'.conn.receiver, y'.read, s.isn, TakenOf(x), s.finFlag) <==> harmless)
            && (Faulty(y'.conn.receiver, s.stream.readCount) <==> !harmless)
            && Acked(y'.conn.receiver) >= Acked(y.conn.receiver)
  {
    var s, call := x.conn.sender, CallOf(step);
    TakenIsSmall(x);
    ReceiverAfter(y, call);
    DeliveredCarries(x, out, y, step);
    TakesInFaithfully(y.conn.receiver, After(y, step).conn.receiver, y.read, call.seg, step.packet.pos,
                      s.isn, TakenOf(x), s.finFlag);
  }

  lemma OtherOutcome(x: Endpoint, out: set<Packet>, y: Endpoint, step: Step)
    requires Channel(x, out, y) && Working(y) && Possible(y, out, step)
    requires step.Local? || !HandedOver(y.conn, CallOf(step).seg)
    ensures var y', s := After(y, step), x.conn.sender;
            && Faithful(y'.conn.receiver, y'.read, s.isn, TakenOf(x), s.finFlag)
            && Acked(y'.conn.receiver) == Acked(y.conn.receiver)
  {
    var s, call := x.conn.sender, CallOf(step);
    ReceiverAfter(y, call);
    if call.Read? {
      ReadKeepsFaith(y, call.len, s.isn, TakenOf(x), s.finFlag);
    } else {
      NothingTakenIn(y.conn.receiver, After(y, step).conn.receiver, y.read, s.isn, TakenOf(x), s.finFlag);
    }
  }

  /** A step of the receiving endpoint keeps the channel exactly when it is harmless; a harmful one is seen. */
  lemma ReceiverStep(x: Endpoint, out: set<Packet>, y: Endpoint, step: Step)
    requires Channel(x, out, y) && Working(y) && Possible(y, out, step)
    ensures var length := x.conn.sender.stream.readCount;
            && (Harmless(y, step, length) <==> Channel(x, out, Collected(After(y, step))))
            && (Harmless(y, step, length) <==> !Faulty(After(y, step).conn.receiver, length))
    ensures Acked(After(y, step).conn.receiver) >= Acked(y.conn.receiver)
  {
    var y', s := After(y, step), x.conn.sender;
    if !step.Local? && HandedOver(y.conn, CallOf(step).seg) {
      DeliveryOutcome(x, out, y, step);
    } else {
      OtherOutcome(x, out, y, step);
      TakenIsSmall(x);
      FaithfulIsNotFaulty(y'.conn.receiver, y'.read, s.isn, TakenOf(x), s.finFlag);
    }
    assert Channel(x, out, Collected(y')) <==> Faithful(y'.conn.receiver, y'.read, s.isn, TakenOf(x), s.finFlag);
  }

  // ----- Whole runs: safety -----

  ghost predicate Safe(n: Net) {
    Channel(n.a, n.fromA, n.b) && Channel(n.b, n.fromB, n.a)
  }

  lemma TurnKeepsSafe(n: Net, t: Turn)
    requires Safe(n) && Allowed(n, t) && HarmlessTurn(n, t)
    ensures Safe(Take(n, t))
  {
    if t.ofA {
      SenderStep(n.a, n.fromA, n.b, CallOf(t.step));
      ReceiverStep(n.b, n.fromB, n.a, t.step);
    } else {
      SenderStep(n.b, n.fromB, n.a, CallOf(t.step));
      ReceiverStep(n.a, n.fromA, n.b, t.step);
    }
  }

  function Start(setupA: Setup, setupB: Setup): Net {
    Net(Fresh(setupA), Fresh(setupB), {}, {})
  }

  predicate WindowFits(setup: Setup) {
    setup.receiveCapacity <= MAX_CAPACITY
  }

  function RunFrom(n: Net, turns: seq<Turn>): Net
    decreases |turns|
  {
    if turns == [] then n else Take(RunFrom(n, turns[..|turns| - 1]), turns[|turns| - 1])
  }

  predicate AllAllowed(n: Net, turns: seq<Turn>)
    decreases |turns|
  {
    turns == [] ||
    (AllAllowed(n, turns[..|turns| - 1]) && Allowed(RunFrom(n, turns[..|turns| - 1]), turns[|turns| - 1]))
  }

  predicate AllHarmless(n: Net, turns: seq<Turn>)
    decreases |turns|
  {
    turns == [] ||
    (AllHarmless(n, turns[..|turns| - 1]) && HarmlessTurn(RunFrom(n, turns[..|turns| - 1]), turns[|turns| - 1]))
  }

  /** One turn more of a run. */
  lemma RunMore(n: Net, turns: seq<Turn>, i: nat)
    requires i < |turns| && AllAllowed(n, turns[..i]) && Allowed(RunFrom(n, turns[..i]), turns[i])
    ensures AllAllowed(n, turns[..i + 1]) && RunFrom(n, turns[..i + 1]) == Take(RunFrom(n, turns[..i]), turns[i])
    ensures AllHarmless(n, turns[..i]) && HarmlessTurn(RunFrom(n, turns[..i]), turns[i]) ==>
              AllHarmless(n, turns[..i + 1])
  {
    assert turns[..i + 1][..i] == turns[..i];
  }

  /** A run that the network can bring about, without a harmful delivery. */
  predicate GoodRun(setupA: Setup, setupB: Setup, turns: seq<Turn>) {
    && WindowFits(setupA) && WindowFits(setupB)
    && AllAllowed(Start(setupA, setupB), turns) && AllHarmless(Start(setupA, setupB), turns)
  }

  lemma StartIsSafe(setupA: Setup, setupB: Setup)
    requires WindowFits(setupA) && WindowFits(setupB)
    ensures Safe(Start(setupA, setupB))
  {
    NewSenderSound(setupA.sendCapacity, setupA.timeout, setupA.isn);
    NewSenderSound(setupB.sendCapacity, setupB.timeout, setupB.isn);
  }

  lemma {:induction false} RunIsSafe(setupA: Setup, setupB: Setup, turns: seq<Turn>)
    requires GoodRun(setupA, setupB, turns)
    ensures Safe(RunFrom(Start(setupA, setupB), turns))
    decreases |turns|
  {
    if turns == [] {
      StartIsSafe(setupA, setupB);
    } else {
      RunIsSafe(setupA, setupB, turns[..|turns| - 1]);
      TurnKeepsSafe(RunFrom(Start(setupA, setupB), turns[..|turns| - 1]), turns[|turns| - 1]);
    }
  }

  predicate FaultyNet(n: Net) {
    || Faulty(n.b.conn.receiver, n.a.conn.sender.stream.readCount)
    || Faulty(n.a.conn.receiver, n.b.conn.sender.stream.readCount)
  }

  predicate NeverFaulty(n: Net, turns: seq<Turn>)
    decreases |turns|
  {
    !FaultyNet(RunFrom(n, turns)) && (turns == [] || NeverFaulty(n, turns[..|turns| - 1]))
  }

  lemma SafeIsNotFaulty(n: Net)
    requires Safe(n)
    ensures !FaultyNet(n)
  {
    TakenIsSmall(n.a);
    TakenIsSmall(n.b);
    FaithfulIsNotFaulty(n.b.conn.receiver, n.b.read, n.a.conn.sender.isn, TakenOf(n.a), n.a.conn.sender.finFlag);
    FaithfulIsNotFaulty(n.a.conn.receiver, n.a.read, n.b.conn.sender.isn, TakenOf(n.b), n.b.conn.sender.finFlag);
  }

  lemma HarmIsSeen(n: Net, t: Turn)
    requires Safe(n) && Allowed(n, t) && !HarmlessTurn(n, t)
    ensures FaultyNet(Take(n, t))
  {
    if t.ofA {
      ReceiverStep(n.b, n.fromB, n.a, t.step);
    } else {
      ReceiverStep(n.a, n.fromA, n.b, t.step);
    }
  }

  /** Over every run that the network can bring about: a stream is seen to have ended with bytes missing, or
      more to have been acknowledged than was taken in, if and only if some delivery was harmful. */
  lemma {:induction false} NeverFaultyIff(setupA: Setup, setupB: Setup, turns: seq<Turn>)
    requires WindowFits(setupA) && WindowFits(setupB) && AllAllowed(Start(setupA, setupB), turns)
    ensures NeverFaulty(Start(setupA, setupB), turns) <==> AllHarmless(Start(setupA, setupB), turns)
    decreases |turns|
  {
    if turns == [] {
      StartIsSafe(setupA, setupB);
      SafeIsNotFaulty(Start(setupA, setupB));
    } else {
      var earlier, t := turns[..|turns| - 1], turns[|turns| - 1];
      NeverFaultyIff(setupA, setupB, earlier);
      if AllHarmless(Start(setupA, setupB), earlier) {
        RunIsSafe(setupA, setupB, earlier);
        var n := RunFrom(Start(setupA, setupB), earlier);
        if HarmlessTurn(n, t) {
          TurnKeepsSafe(n, t);
          SafeIsNotFaulty(Take(n, t));
        } else {
          HarmIsSeen(n, t);
        }
      }
    }
  }

  // ----- FINs in order are enough -----

  ghost predicate AssuredOf(x: Endpoint, y: Endpoint)
    requires Working(x)
  {
    Assured(y.conn.receiver, y.read, TakenOf(x))
  }

  predicate InOrderTurn(n: Net, t: Turn) {
    !t.step.Local? ==> FinInOrder((if t.ofA then n.a else n.b).conn.receiver, CallOf(t.step).seg)
  }

  predicate AllInOrder(n: Net, turns: seq<Turn>)
    decreases |turns|
  {
    turns == [] ||
    (AllInOrder(n, turns[..|turns| - 1]) && InOrderTurn(RunFrom(n, turns[..|turns| - 1]), turns[|turns| - 1]))
  }

  lemma SameKnown(r: Receiver, read: seq<byte>, r': Receiver, read': seq<byte>, taken: seq<byte>)
    requires Assured(r, read, taken) && r'.finSet == r.finSet && r'.reassembler.eof == r.reassembler.eof
    requires r'.reassembler.pending == r.reassembler.pending
    requires Assembled(r'.reassembler, read') == Assembled(r.reassembler, read)
    ensures Assured(r', read', taken)
  {
    if |taken| > 0 { assert KnownAt(r'.reassembler, read', |taken| - 1) == KnownAt(r.reassembler, read, |taken| - 1); }
  }

  lemma AssuredDelivery(x: Endpoint, out: set<Packet>, y: Endpoint, step: Step)
    requires Channel(x, out, y) && Working(y) && Possible(y, out, step) && AssuredOf(x, y)
    requires !step.Local? && HandedOver(y.conn, CallOf(step).seg) && FinInOrder(y.conn.receiver, CallOf(step).seg)
    ensures Harmless(y, step, x.conn.sender.stream.readCount) && AssuredOf(x, After(y, step))
  {
    var s := x.conn.sender;
    TakenIsSmall(x);
    ReceiverAfter(y, CallOf(step));
    DeliveredCarries(x, out, y, step);
    InOrderIsSafe(y.conn.receiver, y.read, CallOf(step).seg, step.packet.pos, s.isn, TakenOf(x), s.finFlag);
  }

  lemma AssuredOtherwise(x: Endpoint, y: Endpoint, call: Call)
    requires Working(x) && Working(y) && AssuredOf(x, y)
    requires call.Receive? ==> !HandedOver(y.conn, call.seg)
    ensures AssuredOf(x, Perform(y, call))
  {
    hide Working, Whole, Connection.SegmentReceived;
    ReceiverAfter(y, call);
    var output := y.conn.receiver.reassembler.output;
    if call.Read? { assert output.Peek(call.len) + output.Pop(call.len).buffer == output.buffer; }
    SameKnown(y.conn.receiver, y.read, Perform(y, call).conn.receiver, Perform(y, call).read, TakenOf(x));
  }

  /** An assured receiver meets no harm, and stays assured. */
  lemma AssuredStep(x: Endpoint, out: set<Packet>, y: Endpoint, step: Step)
    requires Channel(x, out, y) && Working(y) && Possible(y, out, step) && AssuredOf(x, y)
    requires !step.Local? ==> FinInOrder(y.conn.receiver, CallOf(step).seg)
    ensures Harmless(y, step, x.conn.sender.stream.readCount) && AssuredOf(x, After(y, step))
  {
    if !step.Local? && HandedOver(y.conn, CallOf(step).seg) {
      AssuredDelivery(x, out, y, step);
    } else {
      AssuredOtherwise(x, y, CallOf(step));
    }
  }

  /** A sender whose FIN has been noted takes nothing more. */
  lemma AssuredExtension(x: Endpoint, out: set<Packet>, y: Endpoint, call: Call)
    requires Channel(x, out, y) && AssuredOf(x, y) && InRange(Perform(x, call).conn.sender)
    ensures Channel(Collected(Perform(x, call)), out + Packets(Perform(x, call).conn), y)
    ensures AssuredOf(Collected(Perform(x, call)), y)
  {
    SenderStep(x, out, y, call);
    PerformAdvances(x, call);
  }

  /** A run whose FINs arrive in order is free of harm. */
  lemma {:induction false} InOrderRunIsGood(setupA: Setup, setupB: Setup, turns: seq<Turn>)
    requires WindowFits(setupA) && WindowFits(setupB) && AllAllowed(Start(setupA, setupB), turns)
    requires AllInOrder(Start(setupA, setupB), turns)
    ensures GoodRun(setupA, setupB, turns)
    ensures var n := RunFrom(Start(setupA, setupB), turns);
            Safe(n) && AssuredOf(n.a, n.b) && AssuredOf(n.b, n.a)
    decreases |turns|
  {
    if turns == [] {
      StartIsSafe(setupA, setupB);
    } else {
      var earlier, t := turns[..|turns| - 1], turns[|turns| - 1];
      InOrderRunIsGood(setupA, setupB, earlier);
      TurnKeepsAssured(RunFrom(Start(setupA, setupB), earlier), t);
    }
  }

  lemma TurnKeepsAssured(n: Net, t: Turn)
    requires Safe(n) && Allowed(n, t) && AssuredOf(n.a, n.b) && AssuredOf(n.b, n.a) && InOrderTurn(n, t)
    ensures HarmlessTurn(n, t) && Safe(Take(n, t))
    ensures AssuredOf(Take(n, t).a, Take(n, t).b) && AssuredOf(Take(n, t).b, Take(n, t).a)
  {
    if t.ofA {
      AssuredStep(n.b, n.fromB, n.a, t.step);
      AssuredExtension(n.a, n.fromA, n.b, CallOf(t.step));
    } else {
      AssuredStep(n.a, n.fromA, n.b, t.step);
      AssuredExtension(n.b, n.fromB, n.a, CallOf(t.step));
    }
    TurnKeepsSafe(n, t);
  }

  // ----- Prefix safety -----

  /** What y's application has read or can read is a prefix of what x's application wrote, and if y's
      inbound stream has ended, it is all that x ever takes from its own. */
  ghost predicate PrefixSafe(x: Endpoint, y: Endpoint) {
    var got := Assembled(y.conn.receiver.reassembler, y.read);
    && got <= x.input
    && (y.conn.receiver.Ended() ==> x.conn.sender.finFlag && |got| == x.conn.sender.stream.readCount)
  }

  lemma ChannelIsPrefixSafe(x: Endpoint, out: set<Packet>, y: Endpoint)
    requires Channel(x, out, y)
    ensures PrefixSafe(x, y)
  {
    FaithfulIsPrefix(y.conn.receiver, y.read, x.conn.sender.isn, TakenOf(x), x.conn.sender.finFlag);
    TakenIsSmall(x);
  }

  /** End-to-end prefix safety, in both directions, for every run, even with forged acknowledgements. */
  lemma PrefixSafety(setupA: Setup, setupB: Setup, turns: seq<Turn>)
    requires GoodRun(setupA, setupB, turns)
    ensures var n := RunFrom(Start(setupA, setupB), turns);
            PrefixSafe(n.a, n.b) && PrefixSafe(n.b, n.a)
  {
    RunIsSafe(setupA, setupB, turns);
    var n := RunFrom(Start(setupA, setupB), turns);
    ChannelIsPrefixSafe(n.a, n.fromA, n.b);
    ChannelIsPrefixSafe(n.b, n.fromB, n.a);
  }

  // ----- Whole runs: no loss -----

  /** An acknowledgement number that x takes over is one that y really had. */
  lemma AcknoCovered(y: Endpoint, out: set<Packet>, x: Endpoint, step: Step)
    requires Working(x) && AcksCovered(y, out, x) && Possible(x, out, step) && !step.DeliverForged?
    ensures After(x, step).conn.sender.ackno <= Acked(y.conn.receiver)
    ensures After(x, step).conn.sender.isn == x.conn.sender.isn
  {
    hide Perform, Sender.AckReceived;
    var s := x.conn.sender;
    PerformUnhurried(x, CallOf(step));
    PerformAdvances(x, CallOf(step));
    if step.Deliver? && step.packet.seg.header.ack {
      var p := step.packet;
      QuietAckRemovesExactly(s, x.input, p.seg.header.ackno, p.seg.header.win);
      FlightIsSum(s);
      UnwrapOfWrap(p.ackPos, s.isn, s.ackno);
    }
  }

  /** What y sends acknowledges no more than y has. */
  lemma NewAcksCovered(x: Endpoint, out: set<Packet>, y: Endpoint, p: Packet)
    requires Whole(y.conn, y.input) && InRange(y.conn.sender) && p in Packets(y.conn)
    requires Channel(x, out, Collected(y)) && p.seg.header.ack
    ensures p.seg.header.ackno == Wrap(p.ackPos, x.conn.sender.isn) && p.ackPos <= Acked(y.conn.receiver)
  {
    PacketPosition(y, p);
    var r := y.conn.receiver;
    WrapOfUnwrap(r.ackno, r.isn, r.checkpoint);
  }

  ghost predicate Lossless(n: Net) {
    Safe(n) && AcksCovered(n.b, n.fromB, n.a) && AcksCovered(n.a, n.fromA, n.b)
  }

  /** One endpoint's step keeps both endpoints' acknowledgements covered. */
  lemma StepCovered(x: Endpoint, outX: set<Packet>, y: Endpoint, outY: set<Packet>, step: Step)
    requires Channel(x, outX, y) && Channel(y, outY, x)
    requires AcksCovered(y, outY, x) && AcksCovered(x, outX, y)
    requires Possible(x, outY, step) && !step.DeliverForged? && InRange(After(x, step).conn.sender)
    requires Harmless(x, step, y.conn.sender.stream.readCount)
    ensures var x', outX' := Collected(After(x, step)), outX + Packets(After(x, step).conn);
            AcksCovered(y, outY, x') && AcksCovered(x', outX', y)
  {
    var done := After(x, step);
    AcknoCovered(y, outY, x, step);
    PerformAdvances(x, CallOf(step));
    ReceiverStep(y, outY, x, step);
    forall p | p in Packets(done.conn) && p.seg.header.ack
      ensures p.seg.header.ackno == Wrap(p.ackPos, y.conn.sender.isn) && p.ackPos <= Acked(done.conn.receiver)
    {
      NewAcksCovered(y, outY, done, p);
    }
  }

  lemma TurnKeepsLossless(n: Net, t: Turn)
    requires Lossless(n) && Allowed(n, t) && HarmlessTurn(n, t) && !t.step.DeliverForged?
    ensures Lossless(Take(n, t))
  {
    TurnKeepsSafe(n, t);
    if t.ofA {
      StepCovered(n.a, n.fromA, n.b, n.fromB, t.step);
    } else {
      StepCovered(n.b, n.fromB, n.a, n.fromA, t.step);
    }
  }

  predicate NothingForged(turns: seq<Turn>) {
    forall t :: t in turns ==> !t.step.DeliverForged?
  }

  lemma {:induction false} RunIsLossless(setupA: Setup, setupB: Setup, turns: seq<Turn>)
    requires GoodRun(setupA, setupB, turns) && NothingForged(turns)
    ensures Lossless(RunFrom(Start(setupA, setupB), turns))
    decreases |turns|
  {
    if turns == [] {
      StartIsSafe(setupA, setupB);
    } else {
      RunIsLossless(setupA, setupB, turns[..|turns| - 1]);
      TurnKeepsLossless(RunFrom(Start(setupA, setupB), turns[..|turns| - 1]), turns[|turns| - 1]);
    }
  }

  /** The byte that x took from its stream at index `i` is at y, or x still holds it in the outstanding
      segment that covers its sequence number. */
  ghost predicate NotLost(x: Endpoint, y: Endpoint, i: nat)
    requires i < x.conn.sender.stream.readCount <= |x.input|
  {
    var got, s := Assembled(y.conn.receiver.reassembler, y.read), x.conn.sender;
    || (i < |got| && got[i] == x.input[i])
    || (exists k :: k in s.outstands && k <= i + 1 < k + |s.outstands[k].payload|
                    && s.outstands[k].payload[i + 1 - k] == x.input[i])
  }

  lemma OutstandingCovers(x: Endpoint, i: nat)
    requires Working(x) && i < |TakenOf(x)| && OldestSeqno(x.conn.sender) <= i + 1
    ensures exists k :: k in x.conn.sender.outstands && k <= i + 1 < k + |x.conn.sender.outstands[k].payload|
                        && x.conn.sender.outstands[k].payload[i + 1 - k] == x.input[i]
  {
    var s := x.conn.sender;
    var k := TilesCover(s.outstands, OldestSeqno(s), s.nextSeqno, i + 1);
    assert Carries(s.outstands[k], k, s.isn, TakenOf(x), s.finFlag);
    assert TakenOf(x)[i] == x.input[i];
  }

  lemma LosslessByte(x: Endpoint, outX: set<Packet>, y: Endpoint, outY: set<Packet>, i: nat)
    requires Channel(x, outX, y) && AcksCovered(y, outY, x) && i < |TakenOf(x)|
    ensures i < x.conn.sender.stream.readCount <= |x.input| && NotLost(x, y, i)
  {
    TakenIsSmall(x);
    FaithfulIsPrefix(y.conn.receiver, y.read, x.conn.sender.isn, TakenOf(x), x.conn.sender.finFlag);
    if OldestSeqno(x.conn.sender) <= i + 1 {
      OutstandingCovers(x, i);
    } else {
      FlightIsSum(x.conn.sender);
      assert i < |Assembled(y.conn.receiver.reassembler, y.read)|;
    }
  }

  /** End-to-end no-loss, in both directions: no acknowledgement ever makes a sender let go of a byte
      that its peer does not have. */
  lemma NoLoss(setupA: Setup, setupB: Setup, turns: seq<Turn>)
    requires GoodRun(setupA, setupB, turns) && NothingForged(turns)
    ensures var n := RunFrom(Start(setupA, setupB), turns);
            && Feeds(n.a.conn.sender, n.a.input) && Feeds(n.b.conn.sender, n.b.input)
            && (forall i: nat :: i < n.a.conn.sender.stream.readCount ==> NotLost(n.a, n.b, i))
            && (forall i: nat :: i < n.b.conn.sender.stream.readCount ==> NotLost(n.b, n.a, i))
  {
    RunIsLossless(setupA, setupB, turns);
    var n := RunFrom(Start(setupA, setupB), turns);
    TakenIsSmall(n.a);
    TakenIsSmall(n.b);
    forall i: nat | i < n.a.conn.sender.stream.readCount ensures NotLost(n.a, n.b, i) {
      LosslessByte(n.a, n.fromA, n.b, n.fromB, i);
    }
    forall i: nat | i < n.b.conn.sender.stream.readCount ensures NotLost(n.b, n.a, i) {
      LosslessByte(n.b, n.fromB, n.a, n.fromA, i);
    }
  }

  ghost predicate DeliveredIfAcked(x: Endpoint, y: Endpoint) {
    x.conn.sender.flightBytes == 0 ==>
      && |Assembled(y.conn.receiver.reassembler, y.read)| == x.conn.sender.stream.readCount
      && (x.conn.sender.finFlag ==> y.conn.receiver.Ended())
  }

  lemma AckedIsDelivered(x: Endpoint, outX: set<Packet>, y: Endpoint, outY: set<Packet>)
    requires Channel(x, outX, y) && AcksCovered(y, outY, x)
    ensures DeliveredIfAcked(x, y)
  {
    FlightIsSum(x.conn.sender);
    TakenIsSmall(x);
    FaithfulIsPrefix(y.conn.receiver, y.read, x.conn.sender.isn, TakenOf(x), x.conn.sender.finFlag);
  }

  /** When everything a sender has in flight is acknowledged, its peer has every byte it took, and the
      end of the stream if the FIN was among it. */
  lemma AllAckedIsDelivered(setupA: Setup, setupB: Setup, turns: seq<Turn>)
    requires GoodRun(setupA, setupB, turns) && NothingForged(turns)
    ensures var n := RunFrom(Start(setupA, setupB), turns);
            DeliveredIfAcked(n.a, n.b) && DeliveredIfAcked(n.b, n.a)
  {
    RunIsLossless(setupA, setupB, turns);
    var n := RunFrom(Start(setupA, setupB), turns);
    AckedIsDelivered(n.a, n.fromA, n.b, n.fromB);
    AckedIsDelivered(n.b, n.fromB, n.a, n.fromA);
  }
}
