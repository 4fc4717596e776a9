/** Two runs, brought about by a window that the receiver never offered, in which wrong bytes are handed over. */
module WrongBytes {
  import opened Base
  import opened WrappingIntegers
  import opened ByteStreams
  import opened StreamReassemblers
  import opened TcpSegments
  import opened TcpReceivers
  import opened TcpReceiverRuns
  import opened Conversations

  // ----- The receivers -----

  /** A segment of an endpoint whose numbers start at zero and that has heard the peer's SYN only. */
  function Segment(k: uint32, data: seq<byte>, fin: bool): TcpSegment {
    TcpSegment(DEFAULT_HEADER.(seqno := k, ack := true, ackno := 1, win := 10, fin := fin), data)
  }

  /** A receiver that counts from zero too. */
  function Stage(capacity: nat, buffer: seq<byte>, readCount: nat, next: nat, checkpoint: nat, ackno: uint32): Receiver
    requires |buffer| <= capacity
  {
    Receiver(Reassembler(StreamValue(capacity, buffer, readCount, readCount + |buffer|, false, false),
                         next, false, map[]),
             0, true, false, checkpoint, ackno)
  }

  /** Small numbers stand for themselves. */
  lemma SmallNumbers(k: nat, checkpoint: nat)
    requires k < 100 && checkpoint < 100
    ensures Wrap(k, 0) == k && Unwrap(k, 0, checkpoint) == k
  {
    UnwrapOfWrap(k, 0, checkpoint);
  }

  predicate Nearby(r: Receiver) {
    r.isn == 0 && r.synSet && r.ackno < 100 && r.checkpoint < 100
  }

  lemma Places(r: Receiver, k: nat, data: seq<byte>, fin: bool)
    requires Nearby(r) && 1 <= k < 100 && (fin ==> k > 1)
    ensures var seg := Segment(k, data, fin);
            && SegStart(r, seg) == k && WindowStart(r) == r.ackno && StreamIndex(r, seg) == k - 1
            && PayloadEnd(r, seg) == k + (if data != [] then |data| - 1 else if fin then -1 else 0)
  {
    SmallNumbers(k, r.checkpoint);
    SmallNumbers(r.ackno, r.checkpoint);
  }

  /** Bytes at the next index, as many as there is room for. */
  lemma NextBytes(r: Receiver, k: nat, data: seq<byte>)
    requires Nearby(r) && 1 <= k < 100 && data != [] && |data| < 100 && r.reassembler.output.capacity < 100
    requires r.reassembler.pending == map[] && r.reassembler.nextIndex == k - 1
    requires FallsInWindow(r, Segment(k, data, false))
    ensures var p := r.reassembler; var n := Min(|data|, p.output.Remaining());
            var q := FinishIfComplete(p.(output := p.output.(buffer := p.output.buffer + data[..n],
                                                             writCount := p.output.writCount + n),
                                         nextIndex := k - 1 + n));
            r.SegmentReceived(Segment(k, data, false)).0
            == Acknowledge(r.(reassembler := q), k + |data| - 1)
  {
    hide Reassembler.PushSubstring, Unwrap, FallsInWindow;
    Places(r, k, data, false);
    PushAtNext(r.reassembler, data, false);
  }

  /** The numbers stay small throughout. */
  predicate StaysNearby(h: Heard, events: seq<Event>)
    decreases |events|
  {
    events == [] ||
    var earlier := events[..|events| - 1];
    StaysNearby(h, earlier) && Nearby(TcpReceiverRuns.Run(h, earlier).r)
  }

  lemma RunPrefix(h: Heard, events: seq<Event>, i: nat)
    requires i < |events| && StaysNearby(h, events[..i]) && Nearby(TcpReceiverRuns.Run(h, events[..i]).r)
    ensures StaysNearby(h, events[..i + 1])
    ensures TcpReceiverRuns.Run(h, events[..i + 1]) == Step(TcpReceiverRuns.Run(h, events[..i]), events[i])
  {
    assert events[..i + 1][..i] == events[..i];
  }

  // ----- Too many bytes at once: some are handed over twice -----

  function TwiceEvents(): seq<Event> {
    [Arrive(Segment(1, [7, 8, 9], false), 1), TakeOut(2), Arrive(Segment(1, [], false), 1),
     Arrive(Segment(4, [], true), 4), Arrive(Segment(1, [7, 8, 9], false), 1)]
  }

  /** Two of three bytes fit. */
  lemma TwoFit()
    ensures var r := Stage(2, [], 0, 0, 0, 1);
            r.SegmentReceived(Segment(1, [7, 8, 9], false)).0 == Stage(2, [7, 8], 0, 2, 2, 1)
  {
    var r := Stage(2, [], 0, 0, 0, 1);
    Places(r, 1, [7, 8, 9], false);
    assert [7, 8, 9][..2] == [7, 8];
    NextBytes(r, 1, [7, 8, 9]);
  }

  /** A bare acknowledgement brings the number up to date. */
  lemma NumberRefreshed()
    ensures Stage(2, [], 2, 2, 2, 1).SegmentReceived(Segment(1, [], false)).0 == Stage(2, [], 2, 2, 2, 3)
  {
    var r := Stage(2, [], 2, 2, 2, 1);
    Places(r, 1, [], false);
    EmptyPush(r.reassembler, StreamIndex(r, Segment(1, [], false)));
    SmallNumbers(3, 0);
  }

  /** The FIN ends the stream with a byte missing, and counting starts again from zero. */
  function EndedStage(buffer: seq<byte>, ackno: uint32): Receiver
    requires |buffer| <= 2
  {
    Receiver(Reassembler(StreamValue(2, buffer, 2, 2 + |buffer|, true, false), 0, true, map[]),
             0, true, true, 2 + |buffer|, ackno)
  }

  lemma EndsWithoutLast()
    ensures Stage(2, [], 2, 2, 2, 3).SegmentReceived(Segment(4, [], true)).0 == EndedStage([], 3)
  {
    var r := Stage(2, [], 2, 2, 2, 3);
    Places(r, 4, [], true);
    EmptyLastPush(r.reassembler, StreamIndex(r, Segment(4, [], true)));
  }

  lemma SameBytesAgain()
    ensures EndedStage([], 3).SegmentReceived(Segment(1, [7, 8, 9], false)).0.reassembler.output.buffer == [7, 8]
  {
    hide Receiver.SegmentReceived;
    var r := EndedStage([], 3);
    Places(r, 1, [7, 8, 9], false);
    assert [7, 8, 9][..2] == [7, 8];
    NextBytes(r, 1, [7, 8, 9]);
  }

  /** The first segment arrives again after the stream has ended early: the two bytes of it that fit are handed
      over a second time. */
  lemma TwiceHandedOver()
    ensures var h := TcpReceiverRuns.Run(Heard(Stage(2, [], 0, 0, 0, 1), []), TwiceEvents());
            Assembled(h.r.reassembler, h.read) == [7, 8, 7, 8]
    ensures StaysNearby(Heard(Stage(2, [], 0, 0, 0, 1), []), TwiceEvents())
  {
    hide Receiver.SegmentReceived;
    var h, events := Heard(Stage(2, [], 0, 0, 0, 1), []), TwiceEvents();
    TwoFit();
    NumberRefreshed();
    EndsWithoutLast();
    SameBytesAgain();
    RunPrefix(h, events, 0);
    RunPrefix(h, events, 1);
    RunPrefix(h, events, 2);
    RunPrefix(h, events, 3);
    RunPrefix(h, events, 4);
    assert events[..0] == [] && events[..5] == events;
    assert [7, 8][..2] == [7, 8] && [7, 8][2..] == [];
  }

  // ----- Past the edge: some are skipped -----

  function SkipEvents(): seq<Event> {
    [Arrive(Segment(10, [], true), 10), Arrive(Segment(1, [10, 11, 12], false), 1),
     Arrive(Segment(5, [14, 15, 16], false), 5), Arrive(Segment(1, [10, 11, 12], false), 1), TakeOut(1),
     Arrive(Segment(4, [13], false), 4), TakeOut(10), Arrive(Segment(8, [17, 18], false), 8)]
  }

  /** A receiver that has noted a FIN it did not take in. */
  function Missed(buffer: seq<byte>, readCount: nat, next: nat, held: map<nat, byte>, ackno: uint32): Receiver
    requires |buffer| <= 3
  {
    var r := Stage(3, buffer, readCount, next, readCount + |buffer|, ackno);
    r.(finSet := true, reassembler := r.reassembler.(pending := held))
  }

  /** The FIN misses the window. */
  lemma FinMissesWindow()
    ensures Stage(3, [], 0, 0, 0, 1).SegmentReceived(Segment(10, [], true)).0 == Missed([], 0, 0, map[], 1)
  {
    var r := Stage(3, [], 0, 0, 0, 1);
    Places(r, 10, [], true);
    assert !FallsInWindow(r, Segment(10, [], true));
  }

  /** Three bytes fill the buffer, and the number counts the FIN: it is one too high. */
  lemma NumberOvercounts()
    ensures Missed([], 0, 0, map[], 1).SegmentReceived(Segment(1, [10, 11, 12], false)).0
            == Missed([10, 11, 12], 0, 3, map[], 5)
  {
    var r := Missed([], 0, 0, map[], 1);
    Places(r, 1, [10, 11, 12], false);
    assert [10, 11, 12][..3] == [10, 11, 12];
    NextBytes(r, 1, [10, 11, 12]);
    SmallNumbers(5, 0);
  }

  /** So the bytes behind the next one count as in the window, and lie past the edge: all are held. */
  lemma HeldPastEdge()
    ensures Missed([10, 11, 12], 0, 3, map[], 5).SegmentReceived(Segment(5, [14, 15, 16], false)).0
            == Missed([10, 11, 12], 0, 3, map[4 := 14, 5 := 15, 6 := 16], 5)
  {
    hide Store;
    var r := Missed([10, 11, 12], 0, 3, map[], 5);
    var p := r.reassembler;
    Places(r, 5, [14, 15, 16], false);
    assert MaxLength(p, 4) == U64 - 1;
    StoreMeaning(p.pending, [14, 15, 16], 4, 4, 7);
    assert StorePushed(p, [14, 15, 16], 4).pending == map[4 := 14, 5 := 15, 6 := 16];
    assert Drain(StorePushed(p, [14, 15, 16], 4)) == StorePushed(p, [14, 15, 16], 4);
  }

  /** With bytes held the FIN is not counted: the number goes back. */
  lemma NumberGoesBack()
    ensures var held := map[4 := 14, 5 := 15, 6 := 16];
            Missed([10, 11, 12], 0, 3, held, 5).SegmentReceived(Segment(1, [10, 11, 12], false)).0
            == Missed([10, 11, 12], 0, 3, held, 4)
  {
    var r := Missed([10, 11, 12], 0, 3, map[4 := 14, 5 := 15, 6 := 16], 5);
    Places(r, 1, [10, 11, 12], false);
    assert !FallsInWindow(r, Segment(1, [10, 11, 12], false));
    assert 4 in r.reassembler.pending;
    SmallNumbers(4, 0);
  }

  /** Without room, draining throws away what is held. */
  lemma {:induction false} DrainPast(p: Reassembler, data: seq<byte>)
    requires HoldsRun(p, data) && p.output.Remaining() == 0
    ensures Drain(p) == p.(nextIndex := p.nextIndex + |data|, pending := map[])
    decreases |data|
  {
    if data == [] {
      assert p.pending == map[];
    } else {
      assert p.nextIndex in p.pending;
      assert DrainOne(p).output == p.output by { assert p.output.buffer + [data[0]][..0] == p.output.buffer; }
      DrainPast(DrainOne(p), data[1..]);
    }
  }

  lemma LastRoomTaken(p: Reassembler)
    requires p == Missed([11, 12], 1, 3, map[4 := 14, 5 := 15, 6 := 16], 4).reassembler
    ensures StorePushed(p, [13], 3) == p.(pending := p.pending[3 := 13])
    ensures AcceptedLength(p, [13], 3) == 1
  {
    hide Store;
    assert MaxLength(p, 3) == 1;
    StoreMeaning(p.pending, [13], 3, 3, 4);
  }

  lemma HeldAreDropped(p: Reassembler)
    requires p == Missed([11, 12], 1, 3, map[4 := 14, 5 := 15, 6 := 16][3 := 13], 4).reassembler
    ensures Drain(p) == Missed([11, 12, 13], 1, 7, map[], 6).reassembler
  {
    var once := DrainOne(p);
    assert [13][..1] == [13] && once.output.buffer == [11, 12, 13];
    DrainPast(once, [14, 15, 16]);
  }

  /** One byte fits, and the three behind it are lost. */
  lemma HeldAreLost()
    ensures Missed([11, 12], 1, 3, map[4 := 14, 5 := 15, 6 := 16], 4).SegmentReceived(Segment(4, [13], false)).0
            == Missed([11, 12, 13], 1, 7, map[], 6)
  {
    hide StorePushed, AcceptedLength, Drain;
    var r := Missed([11, 12], 1, 3, map[4 := 14, 5 := 15, 6 := 16], 4);
    Places(r, 4, [13], false);
    LastRoomTaken(r.reassembler);
    HeldAreDropped(StorePushed(r.reassembler, [13], 3));
    SmallNumbers(6, 0);
  }

  /** The next bytes follow where the lost ones belonged. */
  lemma BytesMisplaced()
    ensures Missed([], 4, 7, map[], 6).SegmentReceived(Segment(8, [17, 18], false)).0.reassembler.output
            == StreamValue(3, [17, 18], 4, 6, false, false)
  {
    var r := Missed([], 4, 7, map[], 6);
    Places(r, 8, [17, 18], false);
    assert [17, 18][..2] == [17, 18];
    NextBytes(r, 8, [17, 18]);
  }

  lemma HeldThenReadOne(h: Heard, events: seq<Event>)
    requires h == Heard(Stage(3, [], 0, 0, 0, 1), []) && events == SkipEvents()
    ensures TcpReceiverRuns.Run(h, events[..5])
            == Heard(Missed([11, 12], 1, 3, map[4 := 14, 5 := 15, 6 := 16], 4), [10])
    ensures StaysNearby(h, events[..5])
  {
    hide Receiver.SegmentReceived;
    assert events[..0] == [];
    FinMissesWindow();
    RunPrefix(h, events, 0);
    NumberOvercounts();
    RunPrefix(h, events, 1);
    HeldPastEdge();
    RunPrefix(h, events, 2);
    NumberGoesBack();
    RunPrefix(h, events, 3);
    RunPrefix(h, events, 4);
    assert [10, 11, 12][..1] == [10] && [10, 11, 12][1..] == [11, 12];
  }

  /** The FIN is noted, bytes behind the next one are held past the edge, and are lost when the next one comes
      and there is no room for them. The stream does not end. */
  lemma SkippedBytes()
    ensures var h := TcpReceiverRuns.Run(Heard(Stage(3, [], 0, 0, 0, 1), []), SkipEvents());
            Assembled(h.r.reassembler, h.read) == [10, 11, 12, 13, 17, 18] && !h.r.Ended()
    ensures StaysNearby(Heard(Stage(3, [], 0, 0, 0, 1), []), SkipEvents())
  {
    hide Receiver.SegmentReceived, TcpReceiverRuns.Run;
    var h, events := Heard(Stage(3, [], 0, 0, 0, 1), []), SkipEvents();
    assert events[..8] == events;
    HeldThenReadOne(h, events);
    HeldAreLost();
    RunPrefix(h, events, 5);
    RunPrefix(h, events, 6);
    assert [11, 12, 13][..3] == [11, 12, 13] && [11, 12, 13][3..] == [];
    BytesMisplaced();
    RunPrefix(h, events, 7);
  }
}
