/** Conversations: after the handshake every packet is delivered in turn. What is written at either end arrives
    whole at the other, and both ends close without an error. */
module Conversations {
  import opened Base
  import opened WrappingIntegers
  import opened ByteStreams
  import opened StreamReassemblers
  import opened TcpSegments
  import opened TcpReceivers
  import opened TcpSenders
  import opened TcpConnections
  import opened ConnectionInvariants
  import opened ConnectionReplies
  import opened EndToEnd
  import Handshake

  // ----- The sender: what is written goes out at once -----

  /** The stream is drained and open. */
  predicate Ready(s: Sender) {
    s.synFlag && !s.finFlag && s.stream.buffer == [] && !s.stream.ended && s.segmentsOut == []
  }

  /** Bytes taken from the stream as soon as they were written, or the end of the stream taken note of. */
  function Took(s: Sender, data: seq<byte>, fin: bool): Sender
    requires s.stream.buffer == []
  {
    s.(stream := s.stream.(writCount := s.stream.writCount + |data|, readCount := s.stream.readCount + |data|,
                           ended := s.stream.ended || fin),
       finFlag := s.finFlag || fin)
  }

  function Sent(s: Sender, data: seq<byte>, fin: bool): Sender
    requires s.stream.buffer == []
  {
    Took(s, data, fin).SendSegments(DataSegment(data, fin))
  }

  function Piece(s: Sender, data: seq<byte>, fin: bool): TcpSegment {
    var seg := DataSegment(data, fin);
    seg.(header := seg.header.(seqno := Wrap(s.nextSeqno, s.isn)))
  }

  lemma WriteSends(s: Sender, data: seq<byte>, sendSyn: bool)
    requires Ready(s) && 0 < |data| <= Min(MAX_PAYLOAD_SIZE, Room(s)) && |data| <= s.stream.capacity
    ensures WriteStream(s, data).FillWindow(sendSyn) == Sent(s, data, false)
  {
    var w := WriteStream(s, data);
    assert data[..|data|] == data;
    assert w.stream.buffer == data;
    assert Chunk(w) == data && AfterChunk(w) == Took(s, data, false).stream;
    assert SendChunk(w) == Sent(s, data, false);
    IdleFillSendsNothing(SendChunk(w), true);
    assert FillLoop(w) == FillLoop(SendChunk(w));
  }

  lemma EndSends(s: Sender, sendSyn: bool)
    requires Ready(s) && Room(s) > 0
    ensures EndStream(s).FillWindow(sendSyn) == Sent(s, [], true)
  {
    var e := EndStream(s);
    assert Chunk(e) == [] && AfterChunk(e) == Took(s, [], true).stream;
    assert FinishesHere(e);
  }

  /** Everything sent has been acknowledged: the SYN, `count` bytes and, if there was one, the FIN. */
  function RestSender(s: Setup, count: nat, fin: bool, window: uint16): Sender {
    var next := 1 + count + (if fin then 1 else 0);
    NewSender(s.sendCapacity, s.timeout, s.isn)
      .(nextSeqno := next, ackno := next, windowSize := window, synFlag := true, finFlag := fin,
        stream := StreamValue(s.sendCapacity, [], count, count, fin, false))
  }

  /** One segment is in flight behind all that has been acknowledged. */
  function BusySender(s: Setup, count: nat, window: uint16, data: seq<byte>, fin: bool): Sender {
    TakeQueue(Sent(RestSender(s, count, false, window), data, fin))
  }

  lemma BusyIsAcknowledged(s: Setup, count: nat, window: uint16, data: seq<byte>, fin: bool, window': uint16)
    requires (data != [] || fin) && |data| <= MAX_PAYLOAD_SIZE && count + |data| <= MAX_STREAM
    ensures var t := BusySender(s, count, window, data, fin);
            t.AckReceived(Wrap(t.nextSeqno, s.isn), window') == (RestSender(s, count + |data|, fin, window'), true)
  {
    var t, first := BusySender(s, count, window, data, fin), 1 + count;
    var rest := RestSender(s, count + |data|, fin, window');
    UnwrapOfWrap(t.nextSeqno, s.isn, first);
    UnwrapOfWrap(first, s.isn, t.nextSeqno);
    var u := t.(windowSize := window', ackno := t.nextSeqno, leftTimeout := t.initialTimeout);
    var m := u.outstands;
    assert m.Keys == {first} && MinKey(m) == first;
    assert FirstIsAcked(u);
    assert m - {first} == map[];
    assert PopFirst(u).outstands.Keys == {};
    assert SettleTimer(PopAcked(u)) == rest;
    IdleFillSendsNothing(rest, true);
  }

  // ----- The receiver: what comes in order is handed over at once -----

  /** Exactly these bytes are held, from the next index on. */
  ghost predicate HoldsRun(p: Reassembler, data: seq<byte>) {
    && (forall k: nat :: k in p.pending <==> p.nextIndex <= k < p.nextIndex + |data|)
    && (forall k :: k in p.pending ==> p.pending[k] == data[k - p.nextIndex])
  }

  lemma {:induction false} DrainRun(p: Reassembler, data: seq<byte>)
    requires HoldsRun(p, data) && |data| <= p.output.Remaining()
    ensures Drain(p) == p.(output := p.output.(buffer := p.output.buffer + data,
                                               writCount := p.output.writCount + |data|),
                           nextIndex := p.nextIndex + |data|, pending := map[])
    decreases |data|
  {
    if data == [] {
      assert p.pending == map[];
      assert p.output.buffer + data == p.output.buffer;
    } else {
      assert p.nextIndex in p.pending;
      assert data[..1] == [data[0]];
      var once := DrainOne(p);
      assert once.output.buffer == p.output.buffer + [data[0]];
      DrainRun(once, data[1..]);
      assert once.output.buffer + data[1..] == p.output.buffer + data;
    }
  }

  lemma RoomAtNext(p: Reassembler)
    requires p.nextIndex + p.output.capacity < U64
    ensures MaxLength(p, p.nextIndex) == p.output.Remaining()
  {
  }

  lemma StoreAtNext(p: Reassembler, data: seq<byte>)
    requires p.pending == map[] && p.nextIndex + |data| + p.output.capacity < U64
    ensures var n, stored := Min(|data|, p.output.Remaining()), StorePushed(p, data, p.nextIndex);
            && AcceptedLength(p, data, p.nextIndex) == n && HoldsRun(stored, data[..n])
            && stored == p.(pending := stored.pending) && (n == 0 ==> stored == p)
  {
    hide MaxLength, Store;
    var n, i := Min(|data|, p.output.Remaining()), p.nextIndex;
    RoomAtNext(p);
    StoreMeaning(p.pending, data, i, i, i + n);
  }

  /** A substring at the next index, with nothing held back: as much as there is room for is written. */
  lemma PushAtNext(p: Reassembler, data: seq<byte>, eof: bool)
    requires p.pending == map[] && p.nextIndex + |data| + p.output.capacity < U64
    ensures var n := Min(|data|, p.output.Remaining());
            p.PushSubstring(data, p.nextIndex, eof)
            == FinishIfComplete(p.(output := p.output.(buffer := p.output.buffer + data[..n],
                                                       writCount := p.output.writCount + n),
                                   nextIndex := p.nextIndex + n, eof := p.eof || (eof && n == |data|)))
  {
    var n, i := Min(|data|, p.output.Remaining()), p.nextIndex;
    StoreAtNext(p, data);
    if data == [] {
      assert p.output.buffer + data[..n] == p.output.buffer;
    } else {
      hide StorePushed;
      DrainRun(StorePushed(p, data, i), data[..n]);
    }
  }

  /** The SYN, `count` bytes and, if there was one, the FIN have come, and the bytes have been read. */
  function RestReceiver(s: Setup, isn: uint32, count: nat, fin: bool): Receiver {
    Receiver(Reassembler(StreamValue(s.receiveCapacity, [], count, count, fin, false),
                         if fin then 0 else count, fin, map[]),
             isn, true, fin, count, Wrap(1 + count + (if fin then 1 else 0), isn))
  }

  /** More bytes have come, and wait to be read. */
  function FullReceiver(s: Setup, isn: uint32, count: nat, data: seq<byte>): Receiver
    requires |data| <= s.receiveCapacity
  {
    Receiver(Reassembler(StreamValue(s.receiveCapacity, data, count, count + |data|, false, false),
                         count + |data|, false, map[]),
             isn, true, false, count + |data|, Wrap(1 + count + |data|, isn))
  }

  lemma InOrderPlace(s: Setup, isn: uint32, count: nat, seg: TcpSegment)
    requires count <= MAX_STREAM && seg.header.seqno == Wrap(1 + count, isn)
    ensures var r := RestReceiver(s, isn, count, false);
            WindowStart(r) == SegStart(r, seg) == 1 + count && StreamIndex(r, seg) == count && FallsInWindow(r, seg)
  {
    UnwrapOfWrap(1 + count, isn, count);
  }

  lemma DataTaken(s: Setup, isn: uint32, count: nat, seg: TcpSegment)
    requires !seg.header.syn && !seg.header.fin && seg.header.seqno == Wrap(1 + count, isn)
    requires 0 < |seg.payload| <= s.receiveCapacity <= MAX_CAPACITY && count + |seg.payload| <= MAX_STREAM
    ensures RestReceiver(s, isn, count, false).SegmentReceived(seg)
            == (FullReceiver(s, isn, count, seg.payload), true)
  {
    var r := RestReceiver(s, isn, count, false);
    InOrderPlace(s, isn, count, seg);
    PushAtNext(r.reassembler, seg.payload, false);
    assert seg.payload[..|seg.payload|] == seg.payload && [] + seg.payload == seg.payload;
    assert PayloadEnd(r, seg) == count + |seg.payload|;
  }

  lemma FinTaken(s: Setup, isn: uint32, count: nat, seg: TcpSegment)
    requires !seg.header.syn && seg.header.fin && seg.payload == [] && seg.header.seqno == Wrap(1 + count, isn)
    requires s.receiveCapacity <= MAX_CAPACITY && count <= MAX_STREAM
    ensures RestReceiver(s, isn, count, false).SegmentReceived(seg) == (RestReceiver(s, isn, count, true), true)
  {
    var r := RestReceiver(s, isn, count, false);
    InOrderPlace(s, isn, count, seg);
    PushAtNext(r.reassembler, [], true);
  }

  /** A bare acknowledgement from where the receiver stands changes nothing. */
  lemma BareTaken(s: Setup, isn: uint32, count: nat, fin: bool, seg: TcpSegment)
    requires !seg.header.syn && !seg.header.fin && seg.payload == []
    requires seg.header.seqno == Wrap(1 + count + (if fin then 1 else 0), isn) && count <= MAX_STREAM
    requires s.receiveCapacity <= MAX_CAPACITY
    ensures RestReceiver(s, isn, count, fin).SegmentReceived(seg) == (RestReceiver(s, isn, count, fin), true)
  {
    var r, k := RestReceiver(s, isn, count, fin), 1 + count + (if fin then 1 else 0);
    UnwrapOfWrap(k, isn, count);
    assert StorePushed(r.reassembler, [], StreamIndex(r, seg)) == r.reassembler;
    assert PayloadEnd(r, seg) == k;
  }

  // ----- The endpoint that speaks -----

  /** The endpoint after it has sent these bytes, or its FIN, in one segment. */
  function Spoke(e: Endpoint, data: seq<byte>, fin: bool): Endpoint
    requires e.conn.sender.stream.buffer == []
  {
    var c := e.conn;
    Endpoint(c.(sender := TakeQueue(Sent(c.sender, data, fin)), waitForFinAck := c.waitForFinAck || fin),
             e.input + data, e.read)
  }

  function Spoken(e: Endpoint, data: seq<byte>, fin: bool): Packet {
    Packet(Stamp(Piece(e.conn.sender, data, fin), e.conn.receiver, false),
           e.conn.sender.nextSeqno, WindowStart(e.conn.receiver))
  }

  /** The step leads to this endpoint and sends this one packet. */
  predicate SendsOne(e: Endpoint, step: Step, e': Endpoint, p: Packet) {
    Collected(After(e, step)) == e' && Packets(After(e, step).conn) == {p}
  }

  predicate MaySpeak(e: Endpoint, data: seq<byte>, fin: bool) {
    var s := e.conn.sender;
    && Ready(s) && e.conn.segmentsOut == [] && !e.conn.needSendRst
    && (if fin then data == [] && Room(s) > 0
        else 0 < |data| <= Min(MAX_PAYLOAD_SIZE, Room(s)) && |data| <= s.stream.capacity)
    && s.nextSeqno + MAX_PAYLOAD_SIZE < U63
  }

  lemma PieceGoesOut(e: Endpoint, data: seq<byte>, fin: bool)
    requires MaySpeak(e, data, fin)
    ensures var c := e.conn.(sender := Sent(e.conn.sender, data, fin), waitForFinAck := e.conn.waitForFinAck || fin);
            && c.PushSegmentsOut(false) == Drained(c)
            && Drained(c) == Spoke(e, data, fin).conn.(segmentsOut := [Spoken(e, data, fin).seg])
            && Packets(Drained(c)) == {Spoken(e, data, fin)}
  {
    var s := e.conn.sender;
    var c := e.conn.(sender := Sent(s, data, fin), waitForFinAck := e.conn.waitForFinAck || fin);
    IdleFillSendsNothing(c.sender, c.InSynRecv());
    Handshake.SingleDrained(c, Piece(s, data, fin));
    UnwrapOfWrap(s.nextSeqno, s.isn, c.sender.nextSeqno);
    Handshake.OnePacket(Drained(c), Spoken(e, data, fin).seg);
  }

  lemma WriteSpeaks(e: Endpoint, data: seq<byte>)
    requires MaySpeak(e, data, false)
    ensures SendsOne(e, Local(Call.Write(data)), Spoke(e, data, false), Spoken(e, data, false))
  {
    WriteSends(e.conn.sender, data, true);
    PieceGoesOut(e, data, false);
    assert data[..|data|] == data;
  }

  lemma EndSpeaks(e: Endpoint)
    requires MaySpeak(e, [], true)
    ensures SendsOne(e, Local(Call.EndInput), Spoke(e, [], true), Spoken(e, [], true))
  {
    EndSends(e.conn.sender, e.conn.(sender := EndStream(e.conn.sender), waitForFinAck := true).InSynRecv());
    PieceGoesOut(e, [], true);
    assert e.input + [] == e.input;
  }

  // ----- The endpoint that listens -----

  /** Nothing is in flight or left to send. */
  predicate Attentive(c: Connection) {
    && c.active && !c.needSendRst && !c.waitForFinAck && c.segmentsOut == [] && c.receiver.synSet
    && Idle(c.sender) && c.sender.segmentsOut == [] && c.sender.flightBytes == 0
    && c.sender.ackno == c.sender.nextSeqno <= U63
  }

  /** From a peer that has heard all that was said. */
  predicate Attends(c: Connection, seg: TcpSegment) {
    seg.header.ack && !seg.header.rst && seg.header.ackno == Wrap(c.sender.nextSeqno, c.sender.isn)
  }

  /** What it makes of the segment. */
  function Heeding(c: Connection, seg: TcpSegment): Connection {
    var r := c.receiver.SegmentReceived(seg).0;
    c.(timeSince := 0, receiver := r, sender := c.sender.(windowSize := seg.header.win),
       linger := c.linger && (c.sender.stream.Eof() || !r.Ended()))
  }

  function Answer(c: Connection): TcpSegment {
    Stamp(TcpSegment(DEFAULT_HEADER.(seqno := Wrap(c.sender.nextSeqno, c.sender.isn)), []), c.receiver, false)
  }

  lemma Heeds(c: Connection, seg: TcpSegment)
    requires Attentive(c) && Attends(c, seg) && Heeding(c, seg).CleanShutdown() == Heeding(c, seg)
    ensures var d, heeding := c.SegmentReceived(seg), Heeding(c, seg);
            && (d == heeding || d == heeding.(segmentsOut := [Answer(heeding)]))
            && (seg.SequenceLength() > 0 ==> d.segmentsOut != [])
  {
    var d := c.(timeSince := 0);
    UnwrapOfWrap(c.sender.nextSeqno, c.sender.isn, c.sender.ackno);
    assert c.SegmentReceived(seg) == Process(d, seg);
    var (taken, wanted) := TakeIn(d, seg);
    var heeding := Heeding(c, seg);
    assert taken.CleanShutdown() == heeding;
    assert Process(d, seg) == Reply(heeding, wanted || seg.header.fin);
    ReplyIs(heeding, wanted || seg.header.fin);
  }

  lemma ReplyIs(c: Connection, wanted: bool)
    requires Idle(c.sender) && c.sender.segmentsOut == [] && c.receiver.synSet
    requires c.active && !c.needSendRst && c.segmentsOut == [] && c.CleanShutdown() == c
    ensures Reply(c, wanted) == if wanted then c.(segmentsOut := [Answer(c)]) else c
  {
    var empty := TcpSegment(DEFAULT_HEADER.(seqno := Wrap(c.sender.nextSeqno, c.sender.isn)), []);
    var replied := c.(sender := c.sender.SendEmptySegment());
    assert replied.sender.segmentsOut == [empty];
    IdleFillSendsNothing(replied.sender, replied.InSynRecv());
    IdleFillSendsNothing(c.sender, c.InSynRecv());
    Handshake.SingleDrained(replied, empty);
  }

  // ----- One line of the conversation -----

  /** An endpoint that has said and heard these bytes, and has nothing in flight. */
  function Seat(s: Setup, peer: Setup, said: seq<byte>, heard: seq<byte>, window: uint16): Endpoint {
    Endpoint(Connection(s.timeout, RestReceiver(s, peer.isn, |heard|, false), RestSender(s, |said|, false, window),
                        [], true, 0, true, false, false),
             said, heard)
  }

  /** A line fits one segment, the window, and the buffers at both ends. */
  predicate LineFits(s: Setup, peer: Setup, said: seq<byte>, window: uint16, data: seq<byte>) {
    && 0 < |data| <= Min(MAX_PAYLOAD_SIZE, if window > 0 then window else 1)
    && |data| <= s.sendCapacity && |data| <= peer.receiveCapacity
    && |said| + |data| <= MAX_STREAM
  }

  function HeardLine(s: Setup, peer: Setup, said: seq<byte>, heard: seq<byte>, data: seq<byte>): Endpoint
    requires |data| <= s.receiveCapacity
  {
    var e := Seat(s, peer, said, heard, peer.receiveCapacity % U16);
    e.(conn := e.conn.(receiver := FullReceiver(s, peer.isn, |heard|, data)))
  }

  function AnswerPacket(c: Connection): Packet {
    Packet(Answer(c), c.sender.nextSeqno, WindowStart(c.receiver))
  }

  /** The step is possible, leads to this endpoint, and sends these packets. */
  predicate Acts(e: Endpoint, inbox: set<Packet>, step: Step, e': Endpoint, out: set<Packet>) {
    && Possible(e, inbox, step) && Collected(After(e, step)) == e' && Packets(After(e, step).conn) == out
    && InRange(e'.conn.sender)
  }

  lemma LineIsSent(s: Setup, peer: Setup, said: seq<byte>, heard: seq<byte>, window: uint16, data: seq<byte>)
    requires LineFits(s, peer, said, window, data)
    ensures var x := Seat(s, peer, said, heard, window);
            Acts(x, {}, Local(Call.Write(data)), Spoke(x, data, false), {Spoken(x, data, false)})
  {
    WriteSpeaks(Seat(s, peer, said, heard, window), data);
  }

  lemma SeatStands(s: Setup, peer: Setup, said: seq<byte>, heard: seq<byte>, window: uint16)
    requires |heard| <= MAX_STREAM
    ensures WindowStart(Seat(s, peer, said, heard, window).conn.receiver) == 1 + |heard|
  {
    UnwrapOfWrap(1 + |heard|, peer.isn, |heard|);
  }

  lemma LineArrives(s: Setup, peer: Setup, said: seq<byte>, heard: seq<byte>, window: uint16, back: uint16,
                    data: seq<byte>)
    requires LineFits(s, peer, said, window, data) && WindowFits(peer) && |heard| <= MAX_STREAM
    ensures var p, y := Spoken(Seat(s, peer, said, heard, window), data, false), HeardLine(peer, s, heard, said, data);
            Acts(Seat(peer, s, heard, said, back), {p}, Deliver(p), y,
                 {LineAnswer(s, peer, said, heard, data, Left(peer, data))})
  {
    hide Connection.SegmentReceived, Receiver.SegmentReceived;
    var p, y := Spoken(Seat(s, peer, said, heard, window), data, false), HeardLine(peer, s, heard, said, data);
    var c := Seat(peer, s, heard, said, back).conn;
    SeatStands(s, peer, said, heard, window);
    DataTaken(peer, s.isn, |said|, p.seg);
    assert Heeding(c, p.seg) == y.conn;
    Heeds(c, p.seg);
    AnswerIsOne(y.conn);
    AnswerSays(s, peer, said, heard, data);
  }

  lemma AnswerIsOne(c: Connection)
    requires c.sender.nextSeqno <= U63
    ensures Packets(c.(segmentsOut := [Answer(c)])) == {AnswerPacket(c)}
  {
    Handshake.OnePacket(c.(segmentsOut := [Answer(c)]), Answer(c));
    UnwrapOfWrap(c.sender.nextSeqno, c.sender.isn, c.sender.nextSeqno);
  }

  lemma LineIsRead(s: Setup, peer: Setup, said: seq<byte>, heard: seq<byte>, data: seq<byte>)
    requires |data| <= s.receiveCapacity && |said| <= MAX_STREAM
    ensures Acts(HeardLine(s, peer, said, heard, data), {}, Local(Call.Read(|data|)),
                 Seat(s, peer, said, heard + data, peer.receiveCapacity % U16), {})
  {
    assert data[..|data|] == data && data[|data|..] == [];
  }

  /** The bare acknowledgement of the SYN, these many bytes and, if there was one, the FIN, from a peer that has
      sent its SYN and the bytes heard here. */
  function AnswerTo(s: Setup, peer: Setup, said: nat, heard: nat, fin: bool, window: uint16): TcpSegment {
    var header := DEFAULT_HEADER.(seqno := Wrap(1 + heard, peer.isn), ack := true,
                                  ackno := Wrap(1 + said + (if fin then 1 else 0), s.isn), win := window);
    TcpSegment(header, [])
  }

  /** Lines with which 64-bit arithmetic stays in range. */
  predicate Modest(s: Setup, said: seq<byte>, heard: seq<byte>, data: seq<byte>, fin: bool) {
    && WindowFits(s) && |heard| <= MAX_STREAM && |said| + |data| <= MAX_STREAM
    && (data != [] || fin) && |data| <= MAX_PAYLOAD_SIZE
  }

  /** The acknowledgement of a line, or of a FIN, clears what is in flight. */
  lemma AnswerArrives(s: Setup, peer: Setup, said: seq<byte>, heard: seq<byte>, window: uint16,
                      data: seq<byte>, fin: bool, window': uint16)
    requires Modest(s, said, heard, data, fin)
    ensures var c := Spoke(Seat(s, peer, said, heard, window), data, fin).conn;
            c.SegmentReceived(AnswerTo(s, peer, |said| + |data|, |heard|, fin, window'))
            == c.(sender := RestSender(s, |said| + |data|, fin, window'), waitForFinAck := false)
  {
    hide Connection.SegmentReceived, TakeIn, Sender.AckReceived, Receiver.SegmentReceived;
    var c := Spoke(Seat(s, peer, said, heard, window), data, fin).conn;
    var seg := AnswerTo(s, peer, |said| + |data|, |heard|, fin, window');
    assert c.sender.nextSeqno == 1 + |said| + |data| + (if fin then 1 else 0);
    var rest := RestSender(s, |said| + |data|, fin, window');
    BusyIsAcknowledged(s, |said|, window, data, fin, window');
    BareTaken(s, peer.isn, |heard|, false, seg);
    NoSynOutstanding(c);
    BareAckTakenIn(c, seg, rest);
    PlainAckEnds(c, seg, c.(sender := rest));
  }

  lemma BareAckTakenIn(c: Connection, seg: TcpSegment, s: Sender)
    requires seg.header.ack && c.sender.AckReceived(seg.header.ackno, seg.header.win) == (s, true)
    requires c.receiver.SegmentReceived(seg) == (c.receiver, true) && seg.header.seqno == c.receiver.ackno
    requires seg.SequenceLength() == 0
    ensures TakeIn(c, seg) == (c.(sender := s), false)
  {
  }

  lemma NoSynOutstanding(c: Connection)
    requires forall k :: k in c.sender.outstands ==> !c.sender.outstands[k].header.syn
    ensures !c.InSynRecv() && !c.InSynSent()
  {
  }

  /** A bare acknowledgement that calls for nothing, and leaves nothing to send, ends the wait for one. */
  lemma PlainAckEnds(c: Connection, seg: TcpSegment, taken: Connection)
    requires c.active && c.timeSince == 0 && c.receiver.synSet && PassesEarlyReturns(c, seg)
    requires TakeIn(c, seg) == (taken, false) && seg.header.ack && seg.SequenceLength() == 0
    requires taken.active && taken.CleanShutdown() == taken && Idle(taken.sender) && taken.sender.segmentsOut == []
    ensures c.SegmentReceived(seg) == taken.(waitForFinAck := false)
  {
    assert c.SegmentReceived(seg) == Process(c, seg);
    IdleFillSendsNothing(taken.sender, taken.InSynRecv());
  }

  /** What the listener answers: all has come, and this is the room that is left until it is read. */
  function LineAnswer(s: Setup, peer: Setup, said: seq<byte>, heard: seq<byte>, data: seq<byte>, left: uint16): Packet {
    Packet(AnswerTo(s, peer, |said| + |data|, |heard|, false, left), 1 + |heard|, 1 + |said| + |data|)
  }

  function Left(s: Setup, data: seq<byte>): uint16 {
    (s.receiveCapacity - |data|) % U16
  }

  lemma AnswerSays(s: Setup, peer: Setup, said: seq<byte>, heard: seq<byte>, data: seq<byte>)
    requires |data| <= peer.receiveCapacity && |said| + |data| <= MAX_STREAM
    ensures AnswerPacket(HeardLine(peer, s, heard, said, data).conn)
            == LineAnswer(s, peer, said, heard, data, Left(peer, data))
  {
    UnwrapOfWrap(1 + |said| + |data|, s.isn, |said| + |data|);
  }

  lemma DeliveryIs(e: Endpoint, p: Packet)
    ensures After(e, Deliver(p)) == e.(conn := e.conn.SegmentReceived(p.seg))
  {
  }

  lemma SpeakerStands(s: Setup, peer: Setup, said: seq<byte>, heard: seq<byte>, window: uint16, data: seq<byte>,
                      window': uint16)
    requires LineFits(s, peer, said, window, data)
    ensures var x, x' := Spoke(Seat(s, peer, said, heard, window), data, false),
                         Seat(s, peer, said + data, heard, window');
            && x.conn.receiver.checkpoint == |heard| && x.conn.sender.ackno == 1 + |said|
            && x.conn.sender.isn == s.isn && x.conn.sender.nextSeqno == 1 + |said| + |data|
            && x.(conn := x.conn.(sender := RestSender(s, |said| + |data|, false, window'), waitForFinAck := false))
               == x'
            && Packets(x'.conn) == {} && Collected(x') == x' && InRange(x'.conn.sender)
  {
  }

  lemma AnswerIsHeard(s: Setup, peer: Setup, said: seq<byte>, heard: seq<byte>, window: uint16, data: seq<byte>,
                      left: uint16)
    requires LineFits(s, peer, said, window, data) && WindowFits(s) && |heard| <= MAX_STREAM
    ensures var q := LineAnswer(s, peer, said, heard, data, left);
            Acts(Spoke(Seat(s, peer, said, heard, window), data, false), {q}, Deliver(q),
                 Seat(s, peer, said + data, heard, left), {})
  {
    hide Connection.SegmentReceived;
    var x := Spoke(Seat(s, peer, said, heard, window), data, false);
    AnswerArrives(s, peer, said, heard, window, data, false, left);
    SpeakerStands(s, peer, said, heard, window, data, left);
    DeliveryIs(x, LineAnswer(s, peer, said, heard, data, left));
  }

  // ----- Turns of either end -----

  function Side(n: Net, ofA: bool): Endpoint {
    if ofA then n.a else n.b
  }

  function SentBy(n: Net, ofA: bool): set<Packet> {
    if ofA then n.fromA else n.fromB
  }

  predicate Ranged(n: Net) {
    InRange(n.a.conn.sender) && InRange(n.b.conn.sender)
  }

  /** A turn in terms of the endpoint that takes it. */
  lemma TurnIs(n: Net, t: Turn, inbox: set<Packet>, e': Endpoint, out: set<Packet>)
    requires Acts(Side(n, t.ofA), inbox, t.step, e', out) && inbox <= SentBy(n, !t.ofA) && Ranged(n)
    ensures var n' := Take(n, t);
            && Allowed(n, t) && Ranged(n')
            && Side(n', t.ofA) == e' && Side(n', !t.ofA) == Side(n, !t.ofA)
            && SentBy(n', t.ofA) == SentBy(n, t.ofA) + out && SentBy(n', !t.ofA) == SentBy(n, !t.ofA)
  {
  }

  lemma {:induction false} RunConcat(n: Net, xs: seq<Turn>, ys: seq<Turn>)
    ensures RunFrom(n, xs + ys) == RunFrom(RunFrom(n, xs), ys)
    ensures AllAllowed(n, xs) && AllAllowed(RunFrom(n, xs), ys) ==> AllAllowed(n, xs + ys)
    decreases |ys|
  {
    if ys == [] {
      assert xs + ys == xs;
    } else {
      var earlier := ys[..|ys| - 1];
      RunConcat(n, xs, earlier);
      assert (xs + ys)[..|xs + ys| - 1] == xs + earlier;
    }
  }

  /** One end writes a line, the other takes it in and reads it, and the answer comes back. */
  function LineTurns(byA: bool, s: Setup, peer: Setup, said: seq<byte>, heard: seq<byte>, window: uint16,
                     data: seq<byte>): seq<Turn>
  {
    [Turn(byA, Local(Call.Write(data))),
     Turn(!byA, Deliver(Spoken(Seat(s, peer, said, heard, window), data, false))),
     Turn(!byA, Local(Call.Read(|data|))),
     Turn(byA, Deliver(LineAnswer(s, peer, said, heard, data, Left(peer, data))))]
  }

  predicate Seated(n: Net, ofA: bool, s: Setup, peer: Setup, said: seq<byte>, heard: seq<byte>,
                   window: uint16, back: uint16) {
    Side(n, ofA) == Seat(s, peer, said, heard, window) && Side(n, !ofA) == Seat(peer, s, heard, said, back)
  }

  lemma LineTurnsRun(n: Net, byA: bool, s: Setup, peer: Setup, said: seq<byte>, heard: seq<byte>,
                     window: uint16, back: uint16, data: seq<byte>)
    requires Seated(n, byA, s, peer, said, heard, window, back) && LineFits(s, peer, said, window, data)
    requires WindowFits(s) && WindowFits(peer) && |heard| <= MAX_STREAM
    ensures var turns := LineTurns(byA, s, peer, said, heard, window, data);
            && AllAllowed(n, turns)
            && Seated(RunFrom(n, turns), byA, s, peer, said + data, heard,
                      Left(peer, data), s.receiveCapacity % U16)
  {
    var turns := LineTurns(byA, s, peer, said, heard, window, data);
    var x, y := Seat(s, peer, said, heard, window), HeardLine(peer, s, heard, said, data);
    var y', x' := Seat(peer, s, heard, said + data, s.receiveCapacity % U16),
                  Seat(s, peer, said + data, heard, Left(peer, data));
    var p, q := Spoken(x, data, false), LineAnswer(s, peer, said, heard, data, Left(peer, data));
    assert Ranged(n);
    LineIsSent(s, peer, said, heard, window, data);
    LineArrives(s, peer, said, heard, window, back, data);
    LineIsRead(peer, s, heard, said, data);
    AnswerIsHeard(s, peer, said, heard, window, data, Left(peer, data));
    FourTurns(n, turns, Spoke(x, data, false), y, p, q, y', {}, x');
  }

  /** A packet there, a step of its own, and a packet back. */
  lemma FourTurns(n: Net, turns: seq<Turn>, x: Endpoint, y: Endpoint, p: Packet, q: Packet,
                  y': Endpoint, out: set<Packet>, x': Endpoint)
    requires |turns| == 4 && Ranged(n) && var ofA := turns[0].ofA;
             && turns[1].ofA == turns[2].ofA == !ofA && turns[3].ofA == ofA
             && Acts(Side(n, ofA), {}, turns[0].step, x, {p}) && Acts(Side(n, !ofA), {p}, turns[1].step, y, {q})
             && Acts(y, {}, turns[2].step, y', out) && Acts(x, {q}, turns[3].step, x', {})
    ensures var n', ofA := RunFrom(n, turns), turns[0].ofA;
            && AllAllowed(n, turns) && Ranged(n')
            && Side(n', ofA) == x' && Side(n', !ofA) == y' && out <= SentBy(n', !ofA)
  {
    hide Acts, Take, Allowed, Ranged, After, SentBy;
    var n1 := Take(n, turns[0]);
    var n2 := Take(n1, turns[1]);
    var n3 := Take(n2, turns[2]);
    TurnIs(n, turns[0], {}, x, {p});
    TurnIs(n1, turns[1], {p}, y, {q});
    TurnIs(n2, turns[2], {}, y', out);
    TurnIs(n3, turns[3], {q}, x', {});
    assert turns[..0] == [] && turns[..4] == turns;
    RunMore(n, turns, 0);
    RunMore(n, turns, 1);
    RunMore(n, turns, 2);
    RunMore(n, turns, 3);
  }

  // ----- The close -----

  /** The peer has ended its stream, and this end has not. */
  function HalfClosed(s: Setup, peer: Setup, said: seq<byte>, heard: seq<byte>, window: uint16): Endpoint {
    var e := Seat(s, peer, said, heard, window);
    e.(conn := e.conn.(receiver := RestReceiver(s, peer.isn, |heard|, true), linger := false))
  }

  /** This end has ended its stream, and the peer knows. */
  function Finished(s: Setup, peer: Setup, said: seq<byte>, heard: seq<byte>, window: uint16): Endpoint {
    var e := Seat(s, peer, said, heard, window);
    e.(conn := e.conn.(sender := RestSender(s, |said|, true, window)))
  }

  /** Both streams are over, and the last acknowledgement may still be asked for. */
  function Lingering(s: Setup, peer: Setup, said: seq<byte>, heard: seq<byte>, window: uint16): Endpoint {
    var e := Finished(s, peer, said, heard, window);
    e.(conn := e.conn.(receiver := RestReceiver(s, peer.isn, |heard|, true)))
  }

  /** The end that was closed second, once its FIN is acknowledged. */
  function Closed(s: Setup, peer: Setup, said: seq<byte>, heard: seq<byte>, window: uint16): Endpoint {
    var e := Lingering(s, peer, said, heard, window);
    e.(conn := e.conn.(active := false, linger := false, waitForFinAck := true))
  }

  function FinAnswer(s: Setup, peer: Setup, said: seq<byte>, heard: seq<byte>): Packet {
    Packet(AnswerTo(s, peer, |said|, |heard|, true, peer.receiveCapacity % U16), 1 + |heard|, 2 + |said|)
  }

  lemma FinIsSent(s: Setup, peer: Setup, said: seq<byte>, heard: seq<byte>, window: uint16)
    requires |said| <= MAX_STREAM
    ensures var x := Seat(s, peer, said, heard, window);
            Acts(x, {}, Local(Call.EndInput), Spoke(x, [], true), {Spoken(x, [], true)})
  {
    EndSpeaks(Seat(s, peer, said, heard, window));
  }

  lemma FinArrives(s: Setup, peer: Setup, said: seq<byte>, heard: seq<byte>, window: uint16, back: uint16)
    requires WindowFits(peer) && |said| <= MAX_STREAM && |heard| <= MAX_STREAM
    ensures var p := Spoken(Seat(s, peer, said, heard, window), [], true);
            Acts(Seat(peer, s, heard, said, back), {p}, Deliver(p),
                 HalfClosed(peer, s, heard, said, s.receiveCapacity % U16), {FinAnswer(s, peer, said, heard)})
  {
    hide Connection.SegmentReceived, Packets, Receiver.SegmentReceived;
    var p, y := Spoken(Seat(s, peer, said, heard, window), [], true),
                HalfClosed(peer, s, heard, said, s.receiveCapacity % U16);
    var c := Seat(peer, s, heard, said, back).conn;
    SeatStands(s, peer, said, heard, window);
    FinTaken(peer, s.isn, |said|, p.seg);
    assert Heeding(c, p.seg) == y.conn;
    Heeds(c, p.seg);
    AnswerIsOne(y.conn);
    UnwrapOfWrap(2 + |said|, s.isn, |said|);
    assert AnswerPacket(y.conn) == FinAnswer(s, peer, said, heard);
  }

  lemma FinIsAcked(s: Setup, peer: Setup, said: seq<byte>, heard: seq<byte>, window: uint16)
    requires WindowFits(s) && |said| <= MAX_STREAM && |heard| <= MAX_STREAM
    ensures var q := FinAnswer(s, peer, said, heard);
            Acts(Spoke(Seat(s, peer, said, heard, window), [], true), {q}, Deliver(q),
                 Finished(s, peer, said, heard, peer.receiveCapacity % U16), {})
  {
    hide Connection.SegmentReceived;
    var x := Spoke(Seat(s, peer, said, heard, window), [], true);
    AnswerArrives(s, peer, said, heard, window, [], true, peer.receiveCapacity % U16);
    DeliveryIs(x, FinAnswer(s, peer, said, heard));
    assert said + [] == said;
  }

  lemma FinIsReturned(s: Setup, peer: Setup, said: seq<byte>, heard: seq<byte>, window: uint16)
    requires |said| <= MAX_STREAM
    ensures var y := HalfClosed(s, peer, said, heard, window);
            Acts(y, {}, Local(Call.EndInput), Spoke(y, [], true), {Spoken(y, [], true)})
  {
    EndSpeaks(HalfClosed(s, peer, said, heard, window));
  }

  /** The acknowledgement of the second FIN, from the end that was closed first. */
  function LastAnswer(s: Setup, peer: Setup, said: seq<byte>, heard: seq<byte>): Packet {
    var header := DEFAULT_HEADER.(seqno := Wrap(2 + |said|, s.isn), ack := true, ackno := Wrap(2 + |heard|, peer.isn),
                                  win := s.receiveCapacity % U16);
    Packet(TcpSegment(header, []), 2 + |said|, 2 + |heard|)
  }

  lemma HalfClosedStands(s: Setup, peer: Setup, said: seq<byte>, heard: seq<byte>, window: uint16)
    requires |heard| <= MAX_STREAM
    ensures WindowStart(HalfClosed(s, peer, said, heard, window).conn.receiver) == 2 + |heard|
  {
    UnwrapOfWrap(2 + |heard|, peer.isn, |heard|);
  }

  lemma FinBackArrives(s: Setup, peer: Setup, said: seq<byte>, heard: seq<byte>, window: uint16, back: uint16)
    requires WindowFits(s) && |said| <= MAX_STREAM && |heard| <= MAX_STREAM && s.timeout > 0
    ensures var p := Spoken(HalfClosed(peer, s, heard, said, back), [], true);
            Acts(Finished(s, peer, said, heard, window), {p}, Deliver(p),
                 Lingering(s, peer, said, heard, peer.receiveCapacity % U16), {LastAnswer(s, peer, said, heard)})
  {
    hide Connection.SegmentReceived, Receiver.SegmentReceived, Packets;
    var p, x := Spoken(HalfClosed(peer, s, heard, said, back), [], true),
                Lingering(s, peer, said, heard, peer.receiveCapacity % U16);
    var c := Finished(s, peer, said, heard, window).conn;
    HalfClosedStands(peer, s, heard, said, back);
    FinTaken(s, peer.isn, |heard|, p.seg);
    assert Heeding(c, p.seg) == x.conn;
    Heeds(c, p.seg);
    AnswerIsOne(x.conn);
    UnwrapOfWrap(2 + |heard|, peer.isn, |heard|);
    assert AnswerPacket(x.conn) == LastAnswer(s, peer, said, heard);
  }

  /** An acknowledgement that finishes the connection. */
  lemma AckCloses(c: Connection, seg: TcpSegment, taken: Connection)
    requires c.active && c.timeSince == 0 && c.receiver.synSet && PassesEarlyReturns(c, seg)
    requires TakeIn(c, seg) == (taken, false) && taken.timeSince == 0
    requires taken.StreamsFinished() && !taken.linger
    ensures c.SegmentReceived(seg) == taken.(active := false)
  {
    assert c.SegmentReceived(seg) == Process(c, seg);
  }

  lemma LastAckCloses(s: Setup, peer: Setup, said: seq<byte>, heard: seq<byte>, back: uint16)
    requires WindowFits(peer) && |said| <= MAX_STREAM && |heard| <= MAX_STREAM
    ensures var q := LastAnswer(s, peer, said, heard);
            Acts(Spoke(HalfClosed(peer, s, heard, said, back), [], true), {q}, Deliver(q),
                 Closed(peer, s, heard, said, s.receiveCapacity % U16), {})
  {
    hide Connection.SegmentReceived, TakeIn, Sender.AckReceived, Receiver.SegmentReceived;
    var y, q := Spoke(HalfClosed(peer, s, heard, said, back), [], true), LastAnswer(s, peer, said, heard);
    var rest := RestSender(peer, |heard|, true, s.receiveCapacity % U16);
    BusyIsAcknowledged(peer, |heard|, back, [], true, s.receiveCapacity % U16);
    BareTaken(peer, s.isn, |said|, true, q.seg);
    NoSynOutstanding(y.conn);
    BareAckTakenIn(y.conn, q.seg, rest);
    AckCloses(y.conn, q.seg, y.conn.(sender := rest));
    DeliveryIs(y, q);
    assert heard + [] == heard;
  }

  /** After ten retransmission timeouts of silence the end that was closed first is done too. */
  lemma LingeringEnds(s: Setup, peer: Setup, said: seq<byte>, heard: seq<byte>, window: uint16)
    requires |said| <= MAX_STREAM
    ensures var x := Lingering(s, peer, said, heard, window);
            Acts(x, {}, Local(Call.Tick(10 * s.timeout)), x.(conn := x.conn.(active := false)), {})
  {
    var x := Lingering(s, peer, said, heard, window);
    var p := PassTime(x.conn, 10 * s.timeout);
    assert p == x.conn.(timeSince := 10 * s.timeout);
    IdleFillSendsNothing(p.sender, p.InSynRecv());
    assert p.PushSegmentsOut(false) == p;
  }

  // ----- Whole conversations -----

  datatype Line = Line(byA: bool, data: seq<byte>)

  /** What each end has said, and the window that it was offered last. */
  datatype Talk = Talk(saidA: seq<byte>, saidB: seq<byte>, windowA: uint16, windowB: uint16)

  function Said(a: Setup, b: Setup, lines: seq<Line>): Talk
    decreases |lines|
  {
    if lines == [] then Talk([], [], b.receiveCapacity % U16, a.receiveCapacity % U16) else
    var t, line := Said(a, b, lines[..|lines| - 1]), lines[|lines| - 1];
    if line.byA then Talk(t.saidA + line.data, t.saidB, Left(b, line.data), a.receiveCapacity % U16)
    else Talk(t.saidA, t.saidB + line.data, b.receiveCapacity % U16, Left(a, line.data))
  }

  predicate AllFit(a: Setup, b: Setup, lines: seq<Line>)
    decreases |lines|
  {
    lines == [] ||
    var earlier, line := lines[..|lines| - 1], lines[|lines| - 1];
    var t := Said(a, b, earlier);
    && AllFit(a, b, earlier)
    && (if line.byA then LineFits(a, b, t.saidA, t.windowA, line.data)
        else LineFits(b, a, t.saidB, t.windowB, line.data))
  }

  /** The handshake, then every line with its packets delivered in turn. */
  function Script(a: Setup, b: Setup, lines: seq<Line>): seq<Turn>
    decreases |lines|
  {
    if lines == [] then Handshake.Turns(a, b) else
    var earlier, line := lines[..|lines| - 1], lines[|lines| - 1];
    var t := Said(a, b, earlier);
    Script(a, b, earlier)
    + if line.byA then LineTurns(true, a, b, t.saidA, t.saidB, t.windowA, line.data)
      else LineTurns(false, b, a, t.saidB, t.saidA, t.windowB, line.data)
  }

  predicate At(n: Net, a: Setup, b: Setup, t: Talk) {
    n.a == Seat(a, b, t.saidA, t.saidB, t.windowA) && n.b == Seat(b, a, t.saidB, t.saidA, t.windowB)
  }

  lemma HandshakeSeats(a: Setup, b: Setup)
    ensures AllAllowed(Start(a, b), Handshake.Turns(a, b))
    ensures At(RunFrom(Start(a, b), Handshake.Turns(a, b)), a, b, Said(a, b, []))
  {
    Handshake.HandshakeEstablishes(a, b);
  }

  lemma SaidIsSmall(a: Setup, b: Setup, lines: seq<Line>)
    requires AllFit(a, b, lines)
    ensures |Said(a, b, lines).saidA| <= MAX_STREAM && |Said(a, b, lines).saidB| <= MAX_STREAM
    decreases |lines|
  {
    if lines != [] { SaidIsSmall(a, b, lines[..|lines| - 1]); }
  }

  /** Every line arrives and is read, in order, whoever speaks when. */
  lemma {:induction false} LinesArrive(a: Setup, b: Setup, lines: seq<Line>)
    requires WindowFits(a) && WindowFits(b) && AllFit(a, b, lines)
    ensures AllAllowed(Start(a, b), Script(a, b, lines))
    ensures At(RunFrom(Start(a, b), Script(a, b, lines)), a, b, Said(a, b, lines))
    decreases |lines|
  {
    if lines == [] {
      HandshakeSeats(a, b);
    } else {
      var earlier, line := lines[..|lines| - 1], lines[|lines| - 1];
      var t, n := Said(a, b, earlier), RunFrom(Start(a, b), Script(a, b, earlier));
      LinesArrive(a, b, earlier);
      SaidIsSmall(a, b, earlier);
      if line.byA {
        LineTurnsRun(n, true, a, b, t.saidA, t.saidB, t.windowA, t.windowB, line.data);
        RunConcat(Start(a, b), Script(a, b, earlier),
                  LineTurns(true, a, b, t.saidA, t.saidB, t.windowA, line.data));
      } else {
        LineTurnsRun(n, false, b, a, t.saidB, t.saidA, t.windowB, t.windowA, line.data);
        RunConcat(Start(a, b), Script(a, b, earlier),
                  LineTurns(false, b, a, t.saidB, t.saidA, t.windowB, line.data));
      }
    }
  }

  /** A ends its stream, B hears of it and ends its own, and A hears that its end is known. */
  function FinTurns(a: Setup, b: Setup, t: Talk): seq<Turn> {
    [Turn(true, Local(Call.EndInput)),
     Turn(false, Deliver(Spoken(Seat(a, b, t.saidA, t.saidB, t.windowA), [], true))),
     Turn(false, Local(Call.EndInput)),
     Turn(true, Deliver(FinAnswer(a, b, t.saidA, t.saidB)))]
  }

  /** A takes in the end of B's stream, B the last acknowledgement, and A waits a while. */
  function LastTurns(a: Setup, b: Setup, t: Talk): seq<Turn> {
    [Turn(true, Deliver(Spoken(HalfClosed(b, a, t.saidB, t.saidA, a.receiveCapacity % U16), [], true))),
     Turn(false, Deliver(LastAnswer(a, b, t.saidA, t.saidB))),
     Turn(true, Local(Call.Tick(10 * a.timeout)))]
  }

  /** Both have ended their streams: A knows that its end is known, and B waits for that. */
  predicate FinsSent(n: Net, a: Setup, b: Setup, t: Talk) {
    var y := HalfClosed(b, a, t.saidB, t.saidA, a.receiveCapacity % U16);
    && n.a == Finished(a, b, t.saidA, t.saidB, b.receiveCapacity % U16)
    && n.b == Spoke(y, [], true) && Spoken(y, [], true) in n.fromB
  }

  predicate Over(n: Net, a: Setup, b: Setup, t: Talk) {
    var x := Lingering(a, b, t.saidA, t.saidB, b.receiveCapacity % U16);
    && n.a == x.(conn := x.conn.(active := false))
    && n.b == Closed(b, a, t.saidB, t.saidA, a.receiveCapacity % U16)
  }

  predicate Small(t: Talk) {
    |t.saidA| <= MAX_STREAM && |t.saidB| <= MAX_STREAM
  }

  lemma FinsCross(n: Net, a: Setup, b: Setup, t: Talk)
    requires At(n, a, b, t) && WindowFits(a) && WindowFits(b) && Small(t)
    ensures AllAllowed(n, FinTurns(a, b, t))
    ensures FinsSent(RunFrom(n, FinTurns(a, b, t)), a, b, t) && Ranged(RunFrom(n, FinTurns(a, b, t)))
  {
    hide Acts, Sent, Piece;
    var x, x' := Seat(a, b, t.saidA, t.saidB, t.windowA), Finished(a, b, t.saidA, t.saidB, b.receiveCapacity % U16);
    var y := HalfClosed(b, a, t.saidB, t.saidA, a.receiveCapacity % U16);
    assert Ranged(n);
    FinIsSent(a, b, t.saidA, t.saidB, t.windowA);
    FinArrives(a, b, t.saidA, t.saidB, t.windowA, t.windowB);
    FinIsReturned(b, a, t.saidB, t.saidA, a.receiveCapacity % U16);
    FinIsAcked(a, b, t.saidA, t.saidB, t.windowA);
    FourTurns(n, FinTurns(a, b, t), Spoke(x, [], true), y, Spoken(x, [], true),
              FinAnswer(a, b, t.saidA, t.saidB), Spoke(y, [], true), {Spoken(y, [], true)}, x');
  }

  lemma LastTurnsRun(n: Net, a: Setup, b: Setup, t: Talk)
    requires FinsSent(n, a, b, t) && Ranged(n) && WindowFits(a) && WindowFits(b) && a.timeout > 0 && Small(t)
    ensures AllAllowed(n, LastTurns(a, b, t)) && Over(RunFrom(n, LastTurns(a, b, t)), a, b, t)
  {
    hide Acts, Take, Allowed, Ranged;
    var turns, q := LastTurns(a, b, t), LastAnswer(a, b, t.saidA, t.saidB);
    var p := Spoken(HalfClosed(b, a, t.saidB, t.saidA, a.receiveCapacity % U16), [], true);
    var x, y := Lingering(a, b, t.saidA, t.saidB, b.receiveCapacity % U16),
                Closed(b, a, t.saidB, t.saidA, a.receiveCapacity % U16);
    FinBackArrives(a, b, t.saidA, t.saidB, b.receiveCapacity % U16, a.receiveCapacity % U16);
    TurnIs(n, turns[0], {p}, x, {q});
    LastAckCloses(a, b, t.saidA, t.saidB, a.receiveCapacity % U16);
    var n1 := Take(n, turns[0]);
    TurnIs(n1, turns[1], {q}, y, {});
    LingeringEnds(a, b, t.saidA, t.saidB, b.receiveCapacity % U16);
    var n2 := Take(n1, turns[1]);
    TurnIs(n2, turns[2], {}, x.(conn := x.conn.(active := false)), {});
    assert turns[..0] == [] && turns[..3] == turns;
    RunMore(n, turns, 0);
    RunMore(n, turns, 1);
    RunMore(n, turns, 2);
  }

  /** Everything x wrote has been read at y, both are closed, and nothing failed. */
  predicate HeardWhole(x: Endpoint, y: Endpoint, said: seq<byte>) {
    && x.input == said && y.read == said && y.conn.receiver.Ended()
    && !x.conn.active && !x.conn.sender.stream.error && !y.conn.receiver.reassembler.output.error
  }

  lemma OverIsWhole(n: Net, a: Setup, b: Setup, t: Talk)
    requires Over(n, a, b, t)
    ensures HeardWhole(n.a, n.b, t.saidA) && HeardWhole(n.b, n.a, t.saidB)
  {
  }

  function WholeScript(a: Setup, b: Setup, lines: seq<Line>): seq<Turn> {
    Script(a, b, lines) + FinTurns(a, b, Said(a, b, lines)) + LastTurns(a, b, Said(a, b, lines))
  }

  /** From two fresh endpoints on, with every packet delivered in turn: whatever lines the two applications
      write, both streams are read whole at the other end, and both ends close without an error. */
  lemma ConversationCompletes(a: Setup, b: Setup, lines: seq<Line>)
    requires WindowFits(a) && WindowFits(b) && a.timeout > 0 && AllFit(a, b, lines)
    ensures AllAllowed(Start(a, b), WholeScript(a, b, lines))
    ensures var n, t := RunFrom(Start(a, b), WholeScript(a, b, lines)), Said(a, b, lines);
            HeardWhole(n.a, n.b, t.saidA) && HeardWhole(n.b, n.a, t.saidB)
  {
    hide At, FinsSent, Over, HeardWhole, FinTurns, LastTurns, Script, Ranged;
    var start, t, opening := Start(a, b), Said(a, b, lines), Script(a, b, lines);
    LinesArrive(a, b, lines);
    SaidIsSmall(a, b, lines);
    FinsCross(RunFrom(start, opening), a, b, t);
    RunConcat(start, opening, FinTurns(a, b, t));
    LastTurnsRun(RunFrom(start, opening + FinTurns(a, b, t)), a, b, t);
    RunConcat(start, opening + FinTurns(a, b, t), LastTurns(a, b, t));
    OverIsWhole(RunFrom(start, WholeScript(a, b, lines)), a, b, t);
  }

  /** The bytes of a stream, one line each. */
  function ByteByByte(byA: bool, stream: seq<byte>): seq<Line>
    decreases |stream|
  {
    if stream == [] then [] else ByteByByte(byA, stream[..|stream| - 1]) + [Line(byA, [stream[|stream| - 1]])]
  }

  predicate HasRoom(s: Setup) {
    0 < s.receiveCapacity <= MAX_CAPACITY && s.sendCapacity > 0
  }

  /** A single byte fits, whatever the windows are. */
  lemma OneMoreByte(a: Setup, b: Setup, lines: seq<Line>, byA: bool, x: byte)
    requires HasRoom(a) && HasRoom(b) && AllFit(a, b, lines)
    requires var t := Said(a, b, lines); |if byA then t.saidA else t.saidB| < MAX_STREAM
    ensures var t, t' := Said(a, b, lines), Said(a, b, lines + [Line(byA, [x])]);
            && AllFit(a, b, lines + [Line(byA, [x])])
            && t'.saidA == (if byA then t.saidA + [x] else t.saidA)
            && t'.saidB == (if byA then t.saidB else t.saidB + [x])
  {
    var more := lines + [Line(byA, [x])];
    assert more[..|more| - 1] == lines;
  }

  /** So the bytes of any two streams are lines that fit. */
  lemma {:induction false} ByteByByteFits(a: Setup, b: Setup, streamA: seq<byte>, streamB: seq<byte>)
    requires HasRoom(a) && HasRoom(b) && |streamA| <= MAX_STREAM && |streamB| <= MAX_STREAM
    ensures var lines := ByteByByte(true, streamA) + ByteByByte(false, streamB);
            AllFit(a, b, lines) && Said(a, b, lines).saidA == streamA && Said(a, b, lines).saidB == streamB
    decreases |streamA| + |streamB|
  {
    hide AllFit, Said;
    if streamB != [] {
      var rest, last := streamB[..|streamB| - 1], streamB[|streamB| - 1];
      ByteByByteFits(a, b, streamA, rest);
      OneMoreByte(a, b, ByteByByte(true, streamA) + ByteByByte(false, rest), false, last);
      assert ByteByByte(true, streamA) + ByteByByte(false, streamB)
             == ByteByByte(true, streamA) + ByteByByte(false, rest) + [Line(false, [last])];
      assert rest + [last] == streamB;
    } else if streamA != [] {
      var rest, last := streamA[..|streamA| - 1], streamA[|streamA| - 1];
      ByteByByteFits(a, b, rest, []);
      assert ByteByByte(true, rest) + [] == ByteByByte(true, rest);
      OneMoreByte(a, b, ByteByByte(true, rest), true, last);
      assert ByteByByte(true, streamA) + [] == ByteByByte(true, rest) + [Line(true, [last])];
      assert rest + [last] == streamA;
    } else {
      NothingSaid(a, b);
    }
  }

  lemma NothingSaid(a: Setup, b: Setup)
    ensures AllFit(a, b, []) && Said(a, b, []).saidA == [] && Said(a, b, []).saidB == []
  {
  }

  /** And any two streams can be exchanged whole, one in each direction. */
  lemma EveryStreamArrives(a: Setup, b: Setup, streamA: seq<byte>, streamB: seq<byte>)
    requires HasRoom(a) && HasRoom(b) && a.timeout > 0 && |streamA| <= MAX_STREAM && |streamB| <= MAX_STREAM
    ensures exists turns: seq<Turn> :: AllAllowed(Start(a, b), turns)
                            && HeardWhole(RunFrom(Start(a, b), turns).a, RunFrom(Start(a, b), turns).b, streamA)
                            && HeardWhole(RunFrom(Start(a, b), turns).b, RunFrom(Start(a, b), turns).a, streamB)
  {
    var lines := ByteByByte(true, streamA) + ByteByByte(false, streamB);
    ByteByByteFits(a, b, streamA, streamB);
    ConversationCompletes(a, b, lines);
  }
}
