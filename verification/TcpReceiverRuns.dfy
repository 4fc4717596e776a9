/** Runs of a receiver: every segment honest, in any order, with reads in between. */
module TcpReceiverRuns {
  import opened Base
  import opened WrappingIntegers
  import opened StreamReassemblers
  import opened TcpSegments
  import opened TcpReceivers

  datatype Event = Arrive(seg: TcpSegment, pos: nat) | TakeOut(len: nat)

  /** A receiver with every byte its application has read. */
  datatype Heard = Heard(r: Receiver, read: seq<byte>)

  function Step(h: Heard, e: Event): Heard {
    match e
    case Arrive(seg, _) => Heard(h.r.SegmentReceived(seg).0, h.read)
    case TakeOut(len) =>
      var output := h.r.reassembler.output;
      Heard(h.r.(reassembler := h.r.reassembler.(output := output.Pop(len))), h.read + output.Peek(len))
  }

  function Run(h: Heard, events: seq<Event>): Heard
    decreases |events|
  {
    if events == [] then h else Step(Run(h, events[..|events| - 1]), events[|events| - 1])
  }

  /** The peer's stream, and whether its sender has sent the FIN. */
  datatype Source = Source(isn: uint32, taken: seq<byte>, finished: bool)

  ghost predicate True(h: Heard, s: Source) {
    Faithful(h.r, h.read, s.isn, s.taken, s.finished)
  }

  /** A segment of the stream at its place, less than 2^31 from where the receiver stands. */
  ghost predicate Honest(h: Heard, e: Event, s: Source) {
    e.Arrive? ==> Carries(e.seg, e.pos, s.isn, s.taken, s.finished) && -U31 <= e.pos - h.r.checkpoint < U31
  }

  ghost predicate AllHonest(h: Heard, events: seq<Event>, s: Source)
    decreases |events|
  {
    events == [] ||
    var earlier := events[..|events| - 1];
    AllHonest(h, earlier, s) && Honest(Run(h, earlier), events[|events| - 1], s)
  }

  // ----- What can be seen to go wrong -----

  predicate EndedShort(h: Heard, s: Source) {
    h.r.Ended() && h.r.Written() < |s.taken|
  }

  predicate Overcounted(h: Heard) {
    h.r.synSet && WindowStart(h.r) > AckLimit(h.r)
  }

  predicate NeverEndsShort(h: Heard, events: seq<Event>, s: Source)
    decreases |events|
  {
    !EndedShort(Run(h, events), s) && (events == [] || NeverEndsShort(h, events[..|events| - 1], s))
  }

  predicate NeverOvercounts(h: Heard, events: seq<Event>)
    decreases |events|
  {
    !Overcounted(Run(h, events)) && (events == [] || NeverOvercounts(h, events[..|events| - 1]))
  }

  ghost predicate AlwaysExact(h: Heard, events: seq<Event>)
    decreases |events|
  {
    AckIsExact(Run(h, events).r) && (events == [] || AlwaysExact(h, events[..|events| - 1]))
  }

  // ----- The steps at which it does -----

  predicate NoEarlyEnd(h: Heard, events: seq<Event>, s: Source)
    decreases |events|
  {
    events == [] ||
    var earlier, e := events[..|events| - 1], events[|events| - 1];
    NoEarlyEnd(h, earlier, s) && !(e.Arrive? && EndsEarly(Run(h, earlier).r, e.seg, |s.taken|))
  }

  predicate NoOvercount(h: Heard, events: seq<Event>)
    decreases |events|
  {
    events == [] ||
    var earlier, e := events[..|events| - 1], events[|events| - 1];
    NoOvercount(h, earlier) && !(e.Arrive? && Overcounts(Run(h, earlier).r, e.seg))
  }

  predicate NoCut(h: Heard, events: seq<Event>)
    decreases |events|
  {
    events == [] ||
    var earlier, e := events[..|events| - 1], events[|events| - 1];
    NoCut(h, earlier) && !(e.Arrive? && CutShort(Run(h, earlier).r, e.seg))
  }

  predicate FinsInOrder(h: Heard, events: seq<Event>)
    decreases |events|
  {
    events == [] ||
    var earlier, e := events[..|events| - 1], events[|events| - 1];
    FinsInOrder(h, earlier) && (e.Arrive? ==> FinInOrder(Run(h, earlier).r, e.seg))
  }

  // ----- One step -----

  lemma ReadKeeps(h: Heard, len: nat, s: Source)
    requires True(h, s)
    ensures var h' := Step(h, TakeOut(len));
            && True(h', s) && h'.r.Ended() == h.r.Ended() && h'.r.Written() == h.r.Written()
            && WindowStart(h'.r) == WindowStart(h.r) && AckLimit(h'.r) == AckLimit(h.r)
            && (Assured(h.r, h.read, s.taken) ==> Assured(h'.r, h'.read, s.taken))
  {
    ReadFaithful(h.r, h.read, len, s.isn, s.taken, s.finished);
    var output := h.r.reassembler.output;
    assert output.Peek(len) + output.Pop(len).buffer == output.buffer;
    assert Assembled(Step(h, TakeOut(len)).r.reassembler, h.read + output.Peek(len))
           == Assembled(h.r.reassembler, h.read);
  }

  /** One step from a true state, in terms of what can be seen and of what the receiver could foresee. */
  lemma StepIff(h: Heard, e: Event, s: Source)
    requires True(h, s) && Honest(h, e, s)
    ensures var h' := Step(h, e);
            && (EndedShort(h', s) <==> e.Arrive? && EndsEarly(h.r, e.seg, |s.taken|))
            && (Overcounted(h') <==> e.Arrive? && Overcounts(h.r, e.seg))
            && (True(h', s) <==> !EndedShort(h', s) && !Overcounted(h'))
  {
    match e
    case Arrive(seg, pos) =>
      EndsEarlyIff(h.r, h.read, seg, pos, s.isn, s.taken, s.finished);
      OvercountsIff(h.r, h.read, seg, pos, s.isn, s.taken, s.finished);
      ReceivedFaithfulIff(h.r, h.read, seg, pos, s.isn, s.taken, s.finished);
    case TakeOut(len) => ReadKeeps(h, len, s);
  }

  lemma StepExactIff(h: Heard, e: Event, s: Source)
    requires True(h, s) && Honest(h, e, s) && AckIsExact(h.r) && !EndedShort(Step(h, e), s)
    ensures AckIsExact(Step(h, e).r) <==>
            !(e.Arrive? && CutShort(h.r, e.seg)) && !(e.Arrive? && Overcounts(h.r, e.seg))
  {
    StepIff(h, e, s);
    match e
    case Arrive(seg, pos) => AckStaysExactIff(h.r, h.read, seg, pos, s.isn, s.taken, s.finished);
    case TakeOut(len) => ReadKeeps(h, len, s);
  }

  lemma MissedStep(h: Heard, e: Event)
    requires Missed(h.r)
    ensures Missed(Step(h, e).r) && !(e.Arrive? && EndsStream(h.r, e.seg))
  {
    if e.Arrive? { MissedStays(h.r, e.seg); }
  }

  // ----- Whole runs -----

  /** Until the stream ends short, the state is true, or a FIN has been missed and the stream never ends. */
  lemma {:induction false} TrueOrMissed(h: Heard, events: seq<Event>, s: Source)
    requires True(h, s) && AllHonest(h, events, s) && NeverEndsShort(h, events, s)
    ensures True(Run(h, events), s) || Missed(Run(h, events).r)
    decreases |events|
  {
    if events != [] {
      var earlier, e := events[..|events| - 1], events[|events| - 1];
      TrueOrMissed(h, earlier, s);
      if Missed(Run(h, earlier).r) {
        MissedStep(Run(h, earlier), e);
      } else {
        StepIff(Run(h, earlier), e, s);
        if Overcounted(Run(h, events)) { OvercountedIsMissed(Run(h, earlier), e, s); }
      }
    }
  }

  lemma OvercountedIsMissed(h: Heard, e: Event, s: Source)
    requires True(h, s) && Honest(h, e, s) && Overcounted(Step(h, e))
    ensures Missed(Step(h, e).r)
  {
    StepIff(h, e, s);
    var r := h.r;
    TakenBound(r, h.read, s.isn, s.taken, s.finished);
    StartOfSegment(r, e.seg, e.pos, s.isn, s.taken, s.finished);
    OutcomeOfSegment(r, h.read, e.seg, e.pos, s.isn, s.taken, s.finished);
  }

  /** Over every honest run: the stream is seen to have ended with bytes missing if and only if some segment
      ended it early. */
  lemma {:induction false} EndsShortIff(h: Heard, events: seq<Event>, s: Source)
    requires True(h, s) && AllHonest(h, events, s)
    ensures NeverEndsShort(h, events, s) <==> NoEarlyEnd(h, events, s)
    decreases |events|
  {
    if events != [] {
      var earlier, e := events[..|events| - 1], events[|events| - 1];
      EndsShortIff(h, earlier, s);
      if NeverEndsShort(h, earlier, s) {
        TrueOrMissed(h, earlier, s);
        if Missed(Run(h, earlier).r) { MissedStep(Run(h, earlier), e); } else { StepIff(Run(h, earlier), e, s); }
      }
    }
  }

  lemma {:induction false} StaysTrue(h: Heard, events: seq<Event>, s: Source)
    requires True(h, s) && AllHonest(h, events, s) && NeverEndsShort(h, events, s) && NeverOvercounts(h, events)
    ensures True(Run(h, events), s)
    decreases |events|
  {
    if events != [] {
      var earlier, e := events[..|events| - 1], events[|events| - 1];
      StaysTrue(h, earlier, s);
      StepIff(Run(h, earlier), e, s);
    }
  }

  /** Over every honest run whose stream does not end short: more is acknowledged than was taken in if and only
      if some segment overcounted. */
  lemma {:induction false} OvercountedIff(h: Heard, events: seq<Event>, s: Source)
    requires True(h, s) && AllHonest(h, events, s) && NeverEndsShort(h, events, s)
    ensures NeverOvercounts(h, events) <==> NoOvercount(h, events)
    decreases |events|
  {
    if events != [] {
      var earlier, e := events[..|events| - 1], events[|events| - 1];
      OvercountedIff(h, earlier, s);
      if NeverOvercounts(h, earlier) {
        StaysTrue(h, earlier, s);
        StepIff(Run(h, earlier), e, s);
      }
    }
  }

  lemma {:induction false} ExactIsNotOver(h: Heard, events: seq<Event>)
    requires AlwaysExact(h, events)
    ensures NeverOvercounts(h, events)
    decreases |events|
  {
    if events != [] { ExactIsNotOver(h, events[..|events| - 1]); }
  }

  /** And the acknowledgement number is exact at every moment, 1 + bytes written + 1 if ended, if and only if
      no segment overcounted and none was cut short at the window's edge. */
  lemma {:induction false} AlwaysExactIff(h: Heard, events: seq<Event>, s: Source)
    requires True(h, s) && AckIsExact(h.r) && AllHonest(h, events, s) && NeverEndsShort(h, events, s)
    ensures AlwaysExact(h, events) <==> NoOvercount(h, events) && NoCut(h, events)
    decreases |events|
  {
    if events != [] {
      var earlier, e := events[..|events| - 1], events[|events| - 1];
      AlwaysExactIff(h, earlier, s);
      if AlwaysExact(h, earlier) {
        ExactIsNotOver(h, earlier);
        StaysTrue(h, earlier, s);
        StepExactIff(Run(h, earlier), e, s);
      }
    }
  }

  /** Runs whose FINs arrive in order are free of both faults; only cutting makes the number inexact. */
  lemma {:induction false} InOrderRun(h: Heard, events: seq<Event>, s: Source)
    requires True(h, s) && Assured(h.r, h.read, s.taken) && AllHonest(h, events, s) && FinsInOrder(h, events)
    ensures True(Run(h, events), s) && Assured(Run(h, events).r, Run(h, events).read, s.taken)
    ensures NeverEndsShort(h, events, s) && NeverOvercounts(h, events)
    decreases |events|
  {
    if events == [] {
      NotShort(h, s);
    } else {
      var earlier, e := events[..|events| - 1], events[|events| - 1];
      var before := Run(h, earlier);
      InOrderRun(h, earlier, s);
      StepIff(before, e, s);
      match e
      case Arrive(seg, pos) => InOrderIsSafe(before.r, before.read, seg, pos, s.isn, s.taken, s.finished);
      case TakeOut(len) => ReadKeeps(before, len, s);
    }
  }

  lemma NotShort(h: Heard, s: Source)
    requires True(h, s)
    ensures !EndedShort(h, s) && !Overcounted(h)
  {
  }

  /** So from a fresh receiver on, with FINs in order, the number is exact throughout if and only if no segment
      is cut short. */
  lemma InOrderExactIff(capacity: nat, events: seq<Event>, s: Source)
    requires capacity <= MAX_CAPACITY && |s.taken| <= MAX_STREAM
    requires var h := Heard(EmptyReceiver(capacity), []); AllHonest(h, events, s) && FinsInOrder(h, events)
    ensures var h := Heard(EmptyReceiver(capacity), []); AlwaysExact(h, events) <==> NoCut(h, events)
  {
    var h := Heard(EmptyReceiver(capacity), []);
    InOrderRun(h, events, s);
    OvercountedIff(h, events, s);
    AlwaysExactIff(h, events, s);
  }

  // ----- Three honest runs that go wrong -----

  function SynAt(): TcpSegment {
    TcpSegment(DEFAULT_HEADER.(syn := true), [])
  }

  function FinAt(k: uint32): TcpSegment {
    TcpSegment(DEFAULT_HEADER.(seqno := k, fin := true), [])
  }

  function ByteSegment(k: uint32, b: byte): TcpSegment {
    TcpSegment(DEFAULT_HEADER.(seqno := k), [b])
  }

  function AfterSyn(capacity: nat): Receiver {
    EmptyReceiver(capacity).(synSet := true, ackno := 1)
  }

  lemma SynOpens(capacity: nat)
    ensures EmptyReceiver(capacity).SegmentReceived(SynAt()).0 == AfterSyn(capacity)
  {
    var r, seg := EmptyReceiver(capacity).(synSet := true), SynAt();
    assert Unwrap(0, 0, 0) == 0;
    assert PayloadEnd(r, seg) == 0 && FallsInWindow(r, seg);
    EmptyPush(r.reassembler, StreamIndex(r, seg));
    assert Wrap(1, 0) == 1;
  }

  /** The next byte in order is written, with the one behind it if that is held back. */
  lemma PushNextByte(r: Reassembler, b: byte)
    requires r.nextIndex == 0 && r.output.buffer == [] && r.output.writCount == 0 && r.output.readCount == 0
    requires 2 <= r.output.capacity < U64 && 0 !in r.pending && r.pending.Keys <= {1}
    ensures var bytes := if 1 in r.pending then [b, r.pending[1]] else [b];
            r.PushSubstring([b], 0, false)
            == FinishIfComplete(r.(output := r.output.(buffer := bytes, writCount := |bytes|),
                                   nextIndex := |bytes|, pending := map[]))
  {
    MaxLengthInWindow(r, 0);
    assert Store(r.pending, [b], 0, 0, 1) == r.pending[0 := b] by {
      assert Store(r.pending, [b], 0, 0, 0) == r.pending;
    }
    var stored := StorePushed(r, [b], 0);
    assert stored == r.(pending := r.pending[0 := b]);
    var once := DrainOne(stored);
    assert once.output.buffer == [b] && once.pending == r.pending;
    if 1 in r.pending {
      var twice := DrainOne(once);
      assert twice.output.buffer == [b, r.pending[1]] && twice.pending == map[];
      assert Drain(once) == Drain(twice) == twice;
    } else {
      assert once.pending == map[];
      assert Drain(once) == once;
    }
    assert Drain(stored) == Drain(once);
  }

  /** Nothing has been written or read; at most the second byte is held back. */
  predicate Waiting(r: Receiver) {
    && r.synSet && r.isn == 0 && r.checkpoint == 0 && r.ackno == 1
    && var p := r.reassembler;
       && p.nextIndex == 0 && p.output.buffer == [] && p.output.writCount == 0 && p.output.readCount == 0
       && 2 <= p.output.capacity <= 10 && p.pending.Keys <= {1}
  }

  lemma FirstByteReassembled(r: Receiver, b: byte)
    requires Waiting(r)
    ensures PayloadEnd(r, ByteSegment(1, b)) == 1
    ensures Reassemble(r, ByteSegment(1, b)) == r.reassembler.PushSubstring([b], 0, false)
  {
    var seg := ByteSegment(1, b);
    StandsForItself(1);
    assert SegStart(r, seg) == 1 && WindowStart(r) == 1 && StreamIndex(r, seg) == 0;
    assert FallsInWindow(r, seg);
  }

  lemma FirstByteArrives(r: Receiver, b: byte)
    requires Waiting(r)
    ensures var r' := r.SegmentReceived(ByteSegment(1, b)).0;
            var count := if 1 in r.reassembler.pending then 2 else 1;
            && r'.Written() == count && r'.Ended() == (r.Ended() || r.reassembler.eof)
            && r'.ackno == WindowStart(r') == count + 1 + (if r.finSet then 1 else 0)
  {
    FirstByteReassembled(r, b);
    PushNextByte(r.reassembler, b);
    SmallNumber(r.(reassembler := r.reassembler.PushSubstring([b], 0, false)));
  }

  lemma SmallNumber(r: Receiver)
    requires r.isn == 0 && 1 <= r.Written() <= 2 && r.reassembler.pending == map[]
    ensures var r' := Acknowledge(r, 1);
            && r'.reassembler == r.reassembler
            && r'.ackno == WindowStart(r') == r.Written() + 1 + (if r.finSet then 1 else 0)
  {
    var n := r.Written() + 1 + (if r.finSet then 1 else 0);
    StandsForItself(n);
    UnwrapOfWrap(n, 0, r.Written());
  }

  /** With an initial sequence number of zero, small numbers stand for themselves. */
  lemma StandsForItself(k: nat)
    requires k < 100
    ensures Wrap(k, 0) == k && Unwrap(k, 0, 0) == k
  {
    UnwrapOfWrap(k, 0, 0);
  }

  lemma EmptyLastPush(r: Reassembler, index: uint64)
    requires r.pending == map[]
    ensures r.PushSubstring([], index, true)
            == r.(eof := true, output := r.output.(ended := true), nextIndex := 0)
  {
    assert StorePushed(r, [], index) == r;
  }

  /** An empty FIN with nothing held back ends the stream at once. */
  lemma EarlyFinEnds(k: uint32)
    requires 3 <= k <= 10
    ensures var r := AfterSyn(10).SegmentReceived(FinAt(k)).0; var p := AfterSyn(10).reassembler;
            r == AfterSyn(10).(finSet := true, reassembler := p.(eof := true, output := p.output.(ended := true)))
  {
    var r, seg := AfterSyn(10), FinAt(k);
    StandsForItself(k);
    StandsForItself(1);
    assert SegStart(r, seg) == k && WindowStart(r) == 1 && WindowEnd(r) == 10 && PayloadEnd(r, seg) == k - 1;
    EmptyLastPush(r.reassembler, StreamIndex(r, seg));
  }

  /** A stream of two bytes: the SYN arrives, then the FIN before any data, then the first byte. The
      receiver has reported the end of the stream and acknowledges the second byte, which it never had. */
  lemma EarlyFinAcknowledgesMissingByte(last: byte)
    ensures && Carries(SynAt(), 0, 0, [7, last], true) && Carries(FinAt(3), 3, 0, [7, last], true)
            && Carries(ByteSegment(1, 7), 1, 0, [7, last], true)
    ensures var r := ReceiveAll(EmptyReceiver(10), [SynAt(), FinAt(3), ByteSegment(1, 7)]);
            r.Ended() && r.Written() == 1 && r.ackno == 3
  {
    PlacesInStream(1, [7, last]);
    ReceiveThree(EmptyReceiver(10), SynAt(), FinAt(3), ByteSegment(1, 7));
    SynOpens(10);
    EarlyFinEnds(3);
    FirstByteArrives(AfterSyn(10).SegmentReceived(FinAt(3)).0, 7);
  }

  lemma ReceiveThree(r: Receiver, s1: TcpSegment, s2: TcpSegment, s3: TcpSegment)
    ensures ReceiveAll(r, [s1, s2, s3]) == r.SegmentReceived(s1).0.SegmentReceived(s2).0.SegmentReceived(s3).0
  {
    assert [s1][..0] == [] && [s1, s2][..1] == [s1] && [s1, s2, s3][..2] == [s1, s2];
    assert ReceiveAll(r, [s1]) == r.SegmentReceived(s1).0;
    assert ReceiveAll(r, [s1, s2]) == r.SegmentReceived(s1).0.SegmentReceived(s2).0;
  }

  /** A byte and the FIN at their places in a stream. */
  lemma PlacesInStream(k: uint32, taken: seq<byte>)
    requires |taken| < 10
    ensures Carries(SynAt(), 0, 0, taken, true) && Carries(FinAt(|taken| + 1), |taken| + 1, 0, taken, true)
    ensures 1 <= k <= |taken| ==> Carries(ByteSegment(k, taken[k - 1]), k, 0, taken, true)
  {
    if 1 <= k <= |taken| { assert taken[k - 1..k] == [taken[k - 1]]; }
  }

  /** A FIN past the right edge of an empty window of two is noted and nothing else. */
  lemma FinMisses()
    ensures AfterSyn(2).SegmentReceived(FinAt(4)).0 == AfterSyn(2).(finSet := true)
  {
    var r, seg := AfterSyn(2), FinAt(4);
    assert SegStart(r, seg) == 4 && WindowStart(r) == 1 && WindowEnd(r) == 2 && PayloadEnd(r, seg) == 3;
    assert !FallsInWindow(r, seg);
  }

  /** A window of two and a stream of three bytes: the FIN misses the window, then the first byte arrives.
      The second byte is acknowledged, which never came, and the stream has not even ended. */
  lemma MissedFinAcknowledgesMissingByte(second: byte, last: byte)
    ensures && Carries(SynAt(), 0, 0, [7, second, last], true) && Carries(FinAt(4), 4, 0, [7, second, last], true)
            && Carries(ByteSegment(1, 7), 1, 0, [7, second, last], true)
    ensures var r := ReceiveAll(EmptyReceiver(2), [SynAt(), FinAt(4), ByteSegment(1, 7)]);
            && !r.Ended() && r.Written() == 1 && r.ackno == 3 && AckLimit(r) == 2 && WindowStart(r) == 3
  {
    ReceiveThree(EmptyReceiver(2), SynAt(), FinAt(4), ByteSegment(1, 7));
    SynOpens(2);
    FinMisses();
    FirstByteArrives(AfterSyn(2).(finSet := true), 7);
    PlacesInStream(1, [7, second, last]);
  }

  /** A byte out of order is held back. */
  lemma SecondByteIsHeld(b: byte)
    ensures var r := AfterSyn(10);
            r.SegmentReceived(ByteSegment(2, b)).0 == r.(reassembler := r.reassembler.(pending := map[1 := b]))
  {
    var r, seg := AfterSyn(10), ByteSegment(2, b);
    StandsForItself(1);
    StandsForItself(2);
    assert SegStart(r, seg) == 2 && WindowStart(r) == 1 && WindowEnd(r) == 10 && PayloadEnd(r, seg) == 2;
    assert StreamIndex(r, seg) == 1;
    MaxLengthInWindow(r.reassembler, 1);
    assert Store(map[], [b], 1, 1, 2) == map[1 := b] by { assert Store(map[], [b], 1, 1, 1) == map[]; }
  }

  /** A FIN that arrives while a byte is held back is noted, and ends nothing yet. */
  lemma FinIsNoted(b: byte)
    ensures var p := AfterSyn(10).reassembler.(pending := map[1 := b]);
            AfterSyn(10).(reassembler := p).SegmentReceived(FinAt(5)).0
            == AfterSyn(10).(reassembler := p.(eof := true), finSet := true)
  {
    var r := AfterSyn(10).(reassembler := AfterSyn(10).reassembler.(pending := map[1 := b]));
    assert SegStart(r, FinAt(5)) == 5 && WindowStart(r) == 1 && WindowEnd(r) == 10 && PayloadEnd(r, FinAt(5)) == 4;
    assert StreamIndex(r, FinAt(5)) == 4;
    assert StorePushed(r.reassembler, [], 4) == r.reassembler;
    assert 1 in r.reassembler.pending;
  }

  /** A stream of four bytes: the second byte, the FIN, then the first byte. Not the FIN but the last of these
      segments ends the stream, with two bytes of four. */
  lemma HeldByteEndsEarly(third: byte, last: byte)
    ensures var stream := [7, 8, third, last];
            && Carries(SynAt(), 0, 0, stream, true) && Carries(ByteSegment(2, 8), 2, 0, stream, true)
            && Carries(FinAt(5), 5, 0, stream, true) && Carries(ByteSegment(1, 7), 1, 0, stream, true)
    ensures var r := ReceiveAll(EmptyReceiver(10), [SynAt(), ByteSegment(2, 8), FinAt(5)]);
            !r.Ended() && r.SegmentReceived(ByteSegment(1, 7)).0.Ended()
            && r.SegmentReceived(ByteSegment(1, 7)).0.Written() == 2
  {
    PlacesInStream(1, [7, 8, third, last]);
    PlacesInStream(2, [7, 8, third, last]);
    ReceiveThree(EmptyReceiver(10), SynAt(), ByteSegment(2, 8), FinAt(5));
    SynOpens(10);
    SecondByteIsHeld(8);
    FinIsNoted(8);
    FirstByteArrives(ReceiveAll(EmptyReceiver(10), [SynAt(), ByteSegment(2, 8), FinAt(5)]), 7);
  }
}
