/** A forged acknowledgement with a wide window makes the sender run past the receiver's edge: two runs of the
    two-endpoint system after which wrong bytes have been handed over. */
module ForgedWindows {
  import opened Base
  import opened StreamReassemblers
  import opened TcpSegments
  import opened TcpConnections
  import opened ConnectionInvariants
  import opened EndToEnd
  import opened DeliveredBytes
  import opened Conversations
  import opened WrongBytes
  import Handshake
  import Runs = TcpReceiverRuns

  /** The talker, and a listener with this much room; both count from zero. */
  function Party(capacity: nat): Setup {
    Setup(capacity, 10, 1000, 0)
  }

  // ----- The listener -----

  /** It has said nothing, and has heard this. */
  predicate Listens(e: Endpoint, s: Setup, h: Runs.Heard) {
    e == Endpoint(Connection(s.timeout, h.r, RestSender(s, 0, false, 10), [], e.conn.linger, 0, true, false, false),
                  [], h.read)
  }

  predicate IsSegment(seg: TcpSegment) {
    seg.header.ack && !seg.header.rst && !seg.header.syn && seg.header.ackno == 1 && seg.header.win == 10
  }

  lemma HearsOne(e: Endpoint, s: Setup, h: Runs.Heard, seg: TcpSegment, pos: nat)
      returns (e': Endpoint, out: set<Packet>)
    requires Listens(e, s, h) && Nearby(h.r) && IsSegment(seg) && pos < 100 && s.isn == 0
    ensures Acts(e, {Packet(seg, pos, 1)}, Deliver(Packet(seg, pos, 1)), e', out)
    ensures Listens(e', s, Runs.Step(h, Runs.Arrive(seg, pos)))
  {
    hide Connection.SegmentReceived, Packets, Connection.Write;
    SmallNumbers(1, 0);
    Heeds(e.conn, seg);
    e' := e.(conn := Heeding(e.conn, seg));
    out := Packets(After(e, Deliver(Packet(seg, pos, 1))).conn);
  }

  lemma ReadsOne(e: Endpoint, s: Setup, h: Runs.Heard, len: nat) returns (e': Endpoint)
    requires Listens(e, s, h)
    ensures Acts(e, {}, Local(Call.Read(len)), e', {}) && Listens(e', s, Runs.Step(h, Runs.TakeOut(len)))
  {
    e' := After(e, Local(Call.Read(len)));
  }

  function TurnOf(e: Runs.Event): Turn {
    match e
    case Arrive(seg, pos) => Turn(false, Deliver(Packet(seg, pos, 1)))
    case TakeOut(len) => Turn(false, Local(Call.Read(len)))
  }

  function TurnsOf(events: seq<Runs.Event>): (turns: seq<Turn>)
    ensures |turns| == |events| && forall i :: 0 <= i < |events| ==> turns[i] == TurnOf(events[i])
    decreases |events|
  {
    if events == [] then [] else TurnsOf(events[..|events| - 1]) + [TurnOf(events[|events| - 1])]
  }

  /** What arrives is in the network. */
  predicate Available(events: seq<Runs.Event>, out: set<Packet>) {
    forall e :: e in events && e.Arrive? ==> Packet(e.seg, e.pos, 1) in out && IsSegment(e.seg) && e.pos < 100
  }

  lemma HearsEvent(n: Net, s: Setup, h: Runs.Heard, e: Runs.Event)
    requires Listens(n.b, s, h) && Nearby(h.r) && s.isn == 0 && Ranged(n) && Available([e], n.fromA)
    ensures Allowed(n, TurnOf(e)) && Ranged(Take(n, TurnOf(e)))
    ensures Listens(Take(n, TurnOf(e)).b, s, Runs.Step(h, e))
    ensures Take(n, TurnOf(e)).a == n.a && Take(n, TurnOf(e)).fromA == n.fromA
  {
    assert e in [e];
    match e
    case Arrive(seg, pos) =>
      var e', out := HearsOne(n.b, s, h, seg, pos);
      TurnIs(n, TurnOf(e), {Packet(seg, pos, 1)}, e', out);
    case TakeOut(len) =>
      var e' := ReadsOne(n.b, s, h, len);
      TurnIs(n, TurnOf(e), {}, e', {});
  }

  /** The listener hears what its receiver hears. */
  lemma {:induction false} HearsAll(n: Net, s: Setup, h: Runs.Heard, events: seq<Runs.Event>)
    requires Listens(n.b, s, h) && StaysNearby(h, events) && s.isn == 0 && Ranged(n) && Available(events, n.fromA)
    ensures var n' := RunFrom(n, TurnsOf(events));
            && AllAllowed(n, TurnsOf(events)) && Ranged(n')
            && Listens(n'.b, s, Runs.Run(h, events)) && n'.a == n.a && n'.fromA == n.fromA
    decreases |events|
  {
    if events != [] {
      var earlier, e := events[..|events| - 1], events[|events| - 1];
      HearsAll(n, s, h, earlier);
      var turns := TurnsOf(events);
      assert turns[..|turns| - 1] == TurnsOf(earlier) && turns[|turns| - 1] == TurnOf(e);
      HearsEvent(RunFrom(n, TurnsOf(earlier)), s, Runs.Run(h, earlier), e);
    }
  }

  // ----- The talker -----

  /** It has sent these bytes, and none of them has been acknowledged. */
  predicate Talks(e: Endpoint, said: seq<byte>) {
    var c, s := e.conn, e.conn.sender;
    && e.input == said && |said| < 50
    && c.segmentsOut == [] && !c.needSendRst && c.receiver == RestReceiver(Party(10), 0, 0, false)
    && Ready(s) && s.isn == 0 && s.stream.capacity == 10 && s.stream.writCount == |said|
    && s.nextSeqno == 1 + |said| && s.flightBytes == |said| && s.ackno == 1 && s.windowSize == 1000
  }

  lemma SpokenIs(e: Endpoint, said: seq<byte>, data: seq<byte>, fin: bool)
    requires Talks(e, said)
    ensures Spoken(e, data, fin) == Packet(Segment(1 + |said|, data, fin), 1 + |said|, 1)
  {
    SmallNumbers(1 + |said|, 0);
    SmallNumbers(1, 0);
  }

  lemma MayTalk(e: Endpoint, said: seq<byte>, data: seq<byte>, fin: bool)
    requires Talks(e, said) && (if fin then data == [] else 0 < |data| <= 10 && |said| + |data| < 50)
    ensures MaySpeak(e, data, fin) && InRange(Spoke(e, data, fin).conn.sender)
    ensures !fin ==> Talks(Spoke(e, data, fin), said + data)
  {
  }

  lemma TalksOn(n: Net, said: seq<byte>, data: seq<byte>)
    requires Talks(n.a, said) && Ranged(n) && 0 < |data| <= 10 && |said| + |data| < 50
    ensures var t := Turn(true, Local(Call.Write(data))); var n' := Take(n, t);
            && Allowed(n, t) && Ranged(n') && Talks(n'.a, said + data) && n'.b == n.b
            && n'.fromA == n.fromA + {Packet(Segment(1 + |said|, data, false), 1 + |said|, 1)}
  {
    var t := Turn(true, Local(Call.Write(data)));
    MayTalk(n.a, said, data, false);
    SpokenIs(n.a, said, data, false);
    hide Talks, Spoken, Take, Allowed, Ranged;
    WriteSpeaks(n.a, data);
    TurnIs(n, t, {}, Spoke(n.a, data, false), {Spoken(n.a, data, false)});
  }

  lemma StopsTalking(n: Net, said: seq<byte>)
    requires Talks(n.a, said) && Ranged(n)
    ensures var t := Turn(true, Local(Call.EndInput)); var n' := Take(n, t);
            && Allowed(n, t) && Ranged(n') && n'.a.input == said && n'.b == n.b
            && n'.fromA == n.fromA + {Packet(Segment(1 + |said|, [], true), 1 + |said|, 1)}
  {
    var t := Turn(true, Local(Call.EndInput));
    MayTalk(n.a, said, [], true);
    SpokenIs(n.a, said, [], true);
    assert Spoke(n.a, [], true).input == said by { assert said + [] == said; }
    hide Talks, Spoken, Take, Allowed, Ranged;
    EndSpeaks(n.a);
    TurnIs(n, t, {}, Spoke(n.a, [], true), {Spoken(n.a, [], true)});
  }

  function Joined(lines: seq<seq<byte>>): seq<byte>
    decreases |lines|
  {
    if lines == [] then [] else Joined(lines[..|lines| - 1]) + lines[|lines| - 1]
  }

  /** The bare acknowledgement that ends the handshake, and a segment for each line. */
  function Segments(lines: seq<seq<byte>>): set<Packet>
    decreases |lines|
  {
    if lines == [] then {Packet(Segment(1, [], false), 1, 1)} else
    var k := 1 + |Joined(lines[..|lines| - 1])|;
    Segments(lines[..|lines| - 1]) + {Packet(Segment(k % U32, lines[|lines| - 1], false), k, 1)}
  }

  function WriteTurns(lines: seq<seq<byte>>): (turns: seq<Turn>)
    ensures |turns| == |lines|
    decreases |lines|
  {
    if lines == [] then [] else
    WriteTurns(lines[..|lines| - 1]) + [Turn(true, Local(Call.Write(lines[|lines| - 1])))]
  }

  predicate Short(lines: seq<seq<byte>>)
    decreases |lines|
  {
    lines == [] ||
    (Short(lines[..|lines| - 1]) && 0 < |lines[|lines| - 1]| <= 10 && |Joined(lines)| < 50)
  }

  lemma RunOne(n: Net, turns: seq<Turn>, t: Turn)
    requires AllAllowed(n, turns) && Allowed(RunFrom(n, turns), t)
    ensures AllAllowed(n, turns + [t]) && RunFrom(n, turns + [t]) == Take(RunFrom(n, turns), t)
  {
    assert (turns + [t])[..|turns|] == turns;
  }

  lemma NoLine()
    ensures Joined([]) == [] && Segments([]) == {Packet(Segment(1, [], false), 1, 1)} && Short([])
    ensures WriteTurns([]) == []
  {
  }

  /** One more line. */
  lemma OneMoreLine(lines: seq<seq<byte>>, data: seq<byte>)
    ensures var k, more := 1 + |Joined(lines)|, lines + [data];
            && Joined(more) == Joined(lines) + data
            && Segments(more) == Segments(lines) + {Packet(Segment(k % U32, data, false), k, 1)}
            && WriteTurns(more) == WriteTurns(lines) + [Turn(true, Local(Call.Write(data)))]
            && (Short(more) <==> Short(lines) && 0 < |data| <= 10 && |Joined(lines)| + |data| < 50)
  {
    assert (lines + [data])[..|lines|] == lines;
  }

  lemma {:induction false} TalksAll(n: Net, lines: seq<seq<byte>>)
    requires Talks(n.a, []) && Ranged(n) && Segments([]) <= n.fromA && Short(lines)
    ensures var n' := RunFrom(n, WriteTurns(lines));
            && AllAllowed(n, WriteTurns(lines)) && Ranged(n') && Talks(n'.a, Joined(lines))
            && n'.b == n.b && Segments(lines) <= n'.fromA
    decreases |lines|
  {
    hide Talks, Take, Allowed, Ranged, Segment, Joined, Segments, WriteTurns, Short;
    NoLine();
    if lines != [] {
      var earlier, data := lines[..|lines| - 1], lines[|lines| - 1];
      assert lines == earlier + [data];
      OneMoreLine(earlier, data);
      TalksAll(n, earlier);
      TalksOn(RunFrom(n, WriteTurns(earlier)), Joined(earlier), data);
      RunOne(n, WriteTurns(earlier), Turn(true, Local(Call.Write(data))));
    }
  }

  // ----- The runs -----

  /** After the handshake, A is told of a window of a thousand bytes. */
  function Forgery(capacity: nat): Turn {
    Turn(true, DeliverForged(Packet(Handshake.SynAck(Party(capacity), Party(10)), 0, 1), true, 1, 1000))
  }

  /** A's whole stream is in the network, and B has heard nothing yet. */
  predicate Told(n: Net, capacity: nat, lines: seq<seq<byte>>) {
    && Ranged(n) && Listens(n.b, Party(capacity), Runs.Heard(Stage(capacity, [], 0, 0, 0, 1), []))
    && Segments(lines) <= n.fromA
  }

  lemma EstablishedIsTold(capacity: nat)
    requires capacity <= 10
    ensures var a, b := Party(10), Party(capacity); var n := Handshake.EstablishedNet(a, b);
            Told(n, capacity, []) && Forgery(capacity).step.packet in n.fromB
  {
    var a, b := Party(10), Party(capacity);
    SmallNumbers(1, 0);
    assert Handshake.LastAck(a, b) == Segment(1, [], false);
    assert Handshake.EstablishedNet(a, b).b == Seat(b, a, [], [], 10);
  }

  lemma HandshakeOpens(capacity: nat)
    requires capacity <= 10
    ensures var a, b := Party(10), Party(capacity); var n := RunFrom(Start(a, b), Handshake.Turns(a, b));
            && AllAllowed(Start(a, b), Handshake.Turns(a, b)) && Told(n, capacity, [])
            && n.a == Seat(a, b, [], [], capacity) && Forgery(capacity).step.packet in n.fromB
  {
    hide RunFrom, AllAllowed, Told, Forgery, Handshake.Turns, Handshake.EstablishedNet;
    HandshakeSeats(Party(10), Party(capacity));
    Handshake.HandshakeEstablishes(Party(10), Party(capacity));
    EstablishedIsTold(capacity);
  }

  lemma ForgeryWidens(capacity: nat) returns (out: set<Packet>)
    requires capacity <= 10
    ensures var a, b, t := Party(10), Party(capacity), Forgery(capacity);
            Acts(Seat(a, b, [], [], capacity), {t.step.packet}, t.step, Seat(a, b, [], [], 1000), out)
  {
    var a, b, t := Party(10), Party(capacity), Forgery(capacity);
    var e := Seat(a, b, [], [], capacity);
    SmallNumbers(1, 0);
    Heeds(e.conn, CallOf(t.step).seg);
    assert Heeding(e.conn, CallOf(t.step).seg) == Seat(a, b, [], [], 1000).conn;
    out := Packets(After(e, t.step).conn);
  }

  lemma ForgeryOpens(capacity: nat)
    requires capacity <= 10
    ensures var a, b, t := Party(10), Party(capacity), Forgery(capacity);
            var n := RunFrom(Start(a, b), Handshake.Turns(a, b));
            && AllAllowed(Start(a, b), Handshake.Turns(a, b))
            && Allowed(n, t) && Told(Take(n, t), capacity, []) && Talks(Take(n, t).a, [])
  {
    var a, b, t := Party(10), Party(capacity), Forgery(capacity);
    var n := RunFrom(Start(a, b), Handshake.Turns(a, b));
    HandshakeOpens(capacity);
    var out := ForgeryWidens(capacity);
    assert Talks(Seat(a, b, [], [], 1000), []);
    hide Take, Allowed, Ranged, Talks, Listens, Handshake.Turns, Acts, Seat;
    TurnIs(n, t, {t.step.packet}, Seat(a, b, [], [], 1000), out);
  }

  function Opening(capacity: nat): seq<Turn> {
    Handshake.Turns(Party(10), Party(capacity)) + [Forgery(capacity)]
  }

  lemma Opens(capacity: nat)
    requires capacity <= 10
    ensures var start := Start(Party(10), Party(capacity)); var n := RunFrom(start, Opening(capacity));
            AllAllowed(start, Opening(capacity)) && Told(n, capacity, []) && Talks(n.a, [])
  {
    hide RunFrom, AllAllowed, Take, Allowed, Told, Talks, Handshake.Turns, Forgery;
    ForgeryOpens(capacity);
    RunOne(Start(Party(10), Party(capacity)), Handshake.Turns(Party(10), Party(capacity)), Forgery(capacity));
  }

  /** B has room for `capacity` bytes; A writes the lines and ends its stream; */
  function TellTurns(capacity: nat, lines: seq<seq<byte>>): seq<Turn> {
    Opening(capacity) + WriteTurns(lines) + [Turn(true, Local(Call.EndInput))]
  }

  lemma TellsAll(capacity: nat, lines: seq<seq<byte>>)
    requires capacity <= 10 && Short(lines)
    ensures var start, turns := Start(Party(10), Party(capacity)), TellTurns(capacity, lines);
            var n, k := RunFrom(start, turns), 1 + |Joined(lines)|;
            && AllAllowed(start, turns) && Told(n, capacity, lines) && n.a.input == Joined(lines)
            && Packet(Segment(k % U32, [], true), k, 1) in n.fromA
  {
    hide RunFrom, AllAllowed, Take, Allowed, Listens, Opening, WriteTurns, Joined, Short, Segment, Ranged;
    var start, written := Start(Party(10), Party(capacity)), Opening(capacity) + WriteTurns(lines);
    Opens(capacity);
    TalksAll(RunFrom(start, Opening(capacity)), lines);
    RunConcat(start, Opening(capacity), WriteTurns(lines));
    StopsTalking(RunFrom(start, written), Joined(lines));
    RunOne(start, written, Turn(true, Local(Call.EndInput)));
  }

  /** and then B hears what it hears. */
  function ForgedRun(capacity: nat, lines: seq<seq<byte>>, events: seq<Runs.Event>): seq<Turn> {
    TellTurns(capacity, lines) + TurnsOf(events)
  }

  /** What the listener makes of such a run is what its receiver makes of the segments. */
  lemma ForgedRunHears(capacity: nat, lines: seq<seq<byte>>, events: seq<Runs.Event>)
    requires capacity <= 10 && Short(lines)
    requires StaysNearby(Runs.Heard(Stage(capacity, [], 0, 0, 0, 1), []), events)
    requires var k := 1 + |Joined(lines)|;
             Available(events, Segments(lines) + {Packet(Segment(k % U32, [], true), k, 1)})
    ensures var start, turns := Start(Party(10), Party(capacity)), ForgedRun(capacity, lines, events);
            var n, h := RunFrom(start, turns), Runs.Run(Runs.Heard(Stage(capacity, [], 0, 0, 0, 1), []), events);
            && AllAllowed(start, turns) && n.a.input == Joined(lines)
            && n.b.conn.receiver == h.r && n.b.read == h.read
  {
    var start, telling := Start(Party(10), Party(capacity)), TellTurns(capacity, lines);
    TellsAll(capacity, lines);
    hide RunFrom, AllAllowed, TellTurns, TurnsOf, Segments, Joined, Runs.Run, StaysNearby;
    HearsAll(RunFrom(start, telling), Party(capacity), Runs.Heard(Stage(capacity, [], 0, 0, 0, 1), []), events);
    RunConcat(start, telling, TurnsOf(events));
  }

  /** B has room for two bytes and A sends three: B hands over the first two, reads them, is told that the
      stream is over, and hands over the same two bytes again. */
  lemma BytesHandedOverTwice()
    ensures var start := Start(Party(10), Party(2)); var turns := ForgedRun(2, [[7, 8, 9]], TwiceEvents());
            var n := RunFrom(start, turns);
            && AllAllowed(start, turns) && n.a.input == [7, 8, 9]
            && Assembled(n.b.conn.receiver.reassembler, n.b.read) == [7, 8, 7, 8] && !PrefixOf(n.a, n.b)
  {
    hide Joined, Segments, Short, WriteTurns, Runs.Run, StaysNearby;
    NoLine();
    OneMoreLine([], [7, 8, 9]);
    assert [] + [[7, 8, 9]] == [[7, 8, 9]] && [] + [7, 8, 9] == [7, 8, 9];
    TwiceHandedOver();
    ForgedRunHears(2, [[7, 8, 9]], TwiceEvents());
  }

  function SkipLines(): seq<seq<byte>> {
    [[10, 11, 12], [13], [14, 15, 16], [17, 18]]
  }

  lemma SkipLinesAre()
    ensures Joined(SkipLines()) == [10, 11, 12, 13, 14, 15, 16, 17, 18] && Short(SkipLines())
    ensures Segments(SkipLines())
            == {Packet(Segment(1, [], false), 1, 1), Packet(Segment(1, [10, 11, 12], false), 1, 1),
                Packet(Segment(4, [13], false), 4, 1), Packet(Segment(5, [14, 15, 16], false), 5, 1),
                Packet(Segment(8, [17, 18], false), 8, 1)}
  {
    hide Joined, Segments, Short, WriteTurns, Segment;
    var lines := SkipLines();
    NoLine();
    OneMoreLine([], lines[0]);
    OneMoreLine([lines[0]], lines[1]);
    OneMoreLine([lines[0], lines[1]], lines[2]);
    OneMoreLine([lines[0], lines[1], lines[2]], lines[3]);
    assert [] + [lines[0]] == [lines[0]] && [lines[0]] + [lines[1]] == [lines[0], lines[1]];
    assert [lines[0], lines[1]] + [lines[2]] == [lines[0], lines[1], lines[2]];
    assert [lines[0], lines[1], lines[2]] + [lines[3]] == lines;
  }

  lemma SkipIsAvailable()
    ensures Available(SkipEvents(), Segments(SkipLines()) + {Packet(Segment(10, [], true), 10, 1)})
  {
    hide Segments, SkipLines;
    SkipLinesAre();
  }

  /** B has room for three bytes and A sends nine: B misses the FIN, counts it, holds bytes past its right edge and
      loses them for lack of room, and hands over what follows. Its stream never ends. */
  lemma BytesSkipped()
    ensures var start := Start(Party(10), Party(3)); var turns := ForgedRun(3, SkipLines(), SkipEvents());
            var n := RunFrom(start, turns);
            && AllAllowed(start, turns) && n.a.input == [10, 11, 12, 13, 14, 15, 16, 17, 18]
            && Assembled(n.b.conn.receiver.reassembler, n.b.read) == [10, 11, 12, 13, 17, 18]
            && !PrefixOf(n.a, n.b) && !n.b.conn.receiver.Ended()
  {
    hide Joined, Segments, Short, Runs.Run, StaysNearby, Available, SkipLines, SkipEvents, ForgedRun, Start;
    SkipLinesAre();
    SkipIsAvailable();
    SkippedBytes();
    ForgedRunHears(3, SkipLines(), SkipEvents());
    assert [10, 11, 12, 13, 17, 18][4] != [10, 11, 12, 13, 14, 15, 16, 17, 18][4];
  }
}
