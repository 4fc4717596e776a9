/** The sending half of an endpoint: filling the window, outstanding segments, retransmission timer. */
module TcpSenders {
  import opened Base
  import opened WrappingIntegers
  import opened ByteStreams
  import opened TcpSegments

  datatype Sender = Sender(
    isn: uint32, segmentsOut: seq<TcpSegment>, initialTimeout: nat, stream: Stream, nextSeqno: nat,
    outstands: map<nat, TcpSegment>, windowSize: uint16, ackno: nat, flightBytes: int,
    leftTimeout: nat, retransmitCount: nat, timerStart: bool, synFlag: bool, finFlag: bool,
    retransmitTimeout: nat)
  {
    function SendSegments(seg: TcpSegment): Sender {
      var sent := seg.(header := seg.header.(seqno := Wrap(nextSeqno, isn)));
      this.(outstands := outstands[nextSeqno := sent],
            flightBytes := flightBytes + sent.SequenceLength(),
            nextSeqno := nextSeqno + sent.SequenceLength(),
            segmentsOut := segmentsOut + [sent],
            timerStart := true)
    }

    function SendEmptySegment(): Sender {
      var empty := TcpSegment(DEFAULT_HEADER.(seqno := Wrap(nextSeqno, isn)), []);
      this.(segmentsOut := segmentsOut + [empty])
    }

    function FillWindow(sendSyn: bool): Sender {
      if !synFlag then
        if sendSyn then SendSegments(SynSegment()).(synFlag := true) else this
      else if finFlag then this
      else FillLoop(this)
    }

    /** The new state, and whether the acknowledgement number was acceptable. */
    function AckReceived(number: uint32, window: uint16): (Sender, bool) {
      var absolute := Unwrap(number, isn, ackno);
      var s := this.(windowSize := window);
      if absolute > nextSeqno then (s, false)
      else if absolute <= ackno then (s, true)
      else (SettleTimer(PopAcked(s.(ackno := absolute, leftTimeout := initialTimeout))).FillWindow(true), true)
    }

    function Tick(ms: nat): Sender {
      if outstands == map[] then
        this.(timerStart := false, leftTimeout := retransmitTimeout)
      else if !timerStart then this
      else if leftTimeout > ms then this.(leftTimeout := leftTimeout - ms)
      else Retransmit(this)
    }
  }

  function NewSender(capacity: nat, timeout: nat, isn: uint32): Sender {
    Sender(isn, [], timeout, EmptyStream(capacity), 0, map[], 1, 0, 0, timeout, 0, false, false, false, timeout)
  }

  function SynSegment(): TcpSegment {
    TcpSegment(DEFAULT_HEADER.(syn := true), [])
  }

  function DataSegment(data: seq<byte>, fin: bool): TcpSegment {
    TcpSegment(DEFAULT_HEADER.(fin := fin), data)
  }

  function WindowOf(s: Sender): nat {
    if s.windowSize > 0 then s.windowSize else 1
  }

  /** The room left in the window, in unsigned 64-bit arithmetic. */
  function Room(s: Sender): nat {
    (WindowOf(s) - (s.nextSeqno - s.ackno)) % U64
  }

  /** The bytes one segment takes from the stream. */
  function Chunk(s: Sender): seq<byte> {
    s.stream.Peek(Min(MAX_PAYLOAD_SIZE, Room(s)))
  }

  function AfterChunk(s: Sender): Stream {
    s.stream.Pop(Min(MAX_PAYLOAD_SIZE, Room(s)))
  }

  /** The stream is exhausted and the window still has a byte of room: the segment carries the FIN. */
  predicate FinishesHere(s: Sender) {
    AfterChunk(s).Eof() && |Chunk(s)| < Min(MAX_PAYLOAD_SIZE, Room(s))
  }

  function SendChunk(s: Sender): Sender {
    s.(stream := AfterChunk(s), finFlag := s.finFlag || FinishesHere(s))
     .SendSegments(DataSegment(Chunk(s), FinishesHere(s)))
  }

  function FillLoop(s: Sender): Sender
    decreases |s.stream.buffer|
  {
    if Room(s) == 0 then s
    else if FinishesHere(s) then SendChunk(s)
    else if Chunk(s) == [] then s.(stream := AfterChunk(s))
    else FillLoop(SendChunk(s))
  }

  /** The oldest outstanding segment is acknowledged in full. */
  predicate FirstIsAcked(s: Sender)
    requires s.outstands.Keys != {}
  {
    var first := s.outstands[MinKey(s.outstands)];
    s.ackno >= Unwrap(first.header.seqno, s.isn, s.ackno) + first.SequenceLength() && s.flightBytes > 0
  }

  function PopFirst(s: Sender): Sender
    requires s.outstands.Keys != {}
  {
    var k := MinKey(s.outstands);
    s.(flightBytes := s.flightBytes - s.outstands[k].SequenceLength(),
       outstands := s.outstands - {k},
       retransmitCount := 0,
       retransmitTimeout := s.initialTimeout,
       leftTimeout := s.initialTimeout)
  }

  function PopAcked(s: Sender): Sender
    decreases |s.outstands|
  {
    if s.outstands.Keys != {} && FirstIsAcked(s) then
      MapRemoveShrinks(s.outstands, MinKey(s.outstands));
      PopAcked(PopFirst(s))
    else s
  }

  function SettleTimer(s: Sender): Sender {
    s.(timerStart := s.flightBytes != 0)
  }

  function Retransmit(s: Sender): Sender
    requires s.outstands.Keys != {}
  {
    var timeout := if s.windowSize > 0 then s.retransmitTimeout * 2 else s.retransmitTimeout;
    s.(segmentsOut := s.segmentsOut + [s.outstands[MinKey(s.outstands)]],
       retransmitTimeout := timeout,
       retransmitCount := if s.windowSize > 0 then s.retransmitCount + 1 else s.retransmitCount,
       leftTimeout := timeout)
  }

  // ----- The outstanding segments -----

  /** The keys tile the sequence numbers from `base` to `next` without gap or overlap. */
  ghost predicate Tiles(m: map<nat, TcpSegment>, base: nat, next: nat)
    decreases next - base
  {
    if base >= next then base == next && m == map[]
    else
      && base in m && m[base].SequenceLength() > 0
      && base + m[base].SequenceLength() <= next
      && Tiles(m - {base}, base + m[base].SequenceLength(), next)
  }

  /** The bytes in flight recomputed from the outstanding segments, in key order. */
  function FlightSum(m: map<nat, TcpSegment>): nat
    decreases |m|
  {
    if m.Keys == {} then 0 else
    var k := MinKey(m);
    MapRemoveShrinks(m, k);
    m[k].SequenceLength() + FlightSum(m - {k})
  }

  lemma {:induction false} TilesBounds(m: map<nat, TcpSegment>, base: nat, next: nat)
    requires Tiles(m, base, next)
    ensures forall k :: k in m ==> base <= k && m[k].SequenceLength() > 0 && k + m[k].SequenceLength() <= next
    decreases next - base
  {
    if base < next {
      TilesBounds(m - {base}, base + m[base].SequenceLength(), next);
      forall k | k in m ensures base <= k && m[k].SequenceLength() > 0 && k + m[k].SequenceLength() <= next {
        assert k == base || k in m - {base};
      }
    }
  }

  lemma TilesFirst(m: map<nat, TcpSegment>, base: nat, next: nat)
    requires Tiles(m, base, next) && m.Keys != {}
    ensures base < next && MinKey(m) == base
  {
    TilesBounds(m, base, next);
  }

  lemma {:induction false} TilesAppend(m: map<nat, TcpSegment>, base: nat, next: nat, seg: TcpSegment)
    requires Tiles(m, base, next) && seg.SequenceLength() > 0
    ensures Tiles(m[next := seg], base, next + seg.SequenceLength())
    decreases next - base
  {
    var m' := m[next := seg];
    if base == next {
      assert m' - {base} == map[];
    } else {
      TilesBounds(m, base, next);
      assert m'[base] == m[base];
      var base' := base + m[base].SequenceLength();
      TilesAppend(m - {base}, base', next, seg);
      assert (m - {base})[next := seg] == m' - {base};
    }
  }

  lemma {:induction false} TilesSum(m: map<nat, TcpSegment>, base: nat, next: nat)
    requires Tiles(m, base, next)
    ensures FlightSum(m) == next - base
    decreases next - base
  {
    if base < next {
      TilesFirst(m, base, next);
      TilesSum(m - {base}, base + m[base].SequenceLength(), next);
    }
  }

  /** Every sequence number in flight belongs to an outstanding segment. */
  lemma {:induction false} TilesCover(m: map<nat, TcpSegment>, base: nat, next: nat, p: nat) returns (k: nat)
    requires Tiles(m, base, next) && base <= p < next
    ensures k in m && k <= p < k + m[k].SequenceLength()
    decreases next - base
  {
    if p < base + m[base].SequenceLength() {
      k := base;
    } else {
      k := TilesCover(m - {base}, base + m[base].SequenceLength(), next, p);
    }
  }

  // ----- What every reachable sender satisfies -----

  function OldestSeqno(s: Sender): int {
    s.nextSeqno - s.flightBytes
  }

  /** The cached counter, the timer and the acknowledgement number agree with the outstanding segments. */
  ghost predicate Accounted(s: Sender) {
    && 0 <= s.flightBytes <= s.nextSeqno
    && Tiles(s.outstands, OldestSeqno(s), s.nextSeqno)
    && (forall k :: k in s.outstands ==> s.outstands[k].header.seqno == Wrap(k, s.isn))
    && (s.timerStart <==> s.outstands != map[])
    && (if s.outstands == map[] then s.ackno == s.nextSeqno
        else OldestSeqno(s) <= s.ackno < OldestSeqno(s) + s.outstands[OldestSeqno(s)].SequenceLength())
  }

  ghost predicate Timed(s: Sender) {
    && s.retransmitTimeout == s.initialTimeout * Pow2(s.retransmitCount)
    && s.leftTimeout <= s.retransmitTimeout
    && (s.initialTimeout > 0 ==> s.leftTimeout > 0)
    && (s.outstands == map[] ==> s.retransmitCount == 0 && s.leftTimeout == s.initialTimeout)
  }

  /** Sequence numbers in use: the SYN, one for each byte taken from the stream, the FIN. */
  ghost predicate Ledger(s: Sender) {
    && s.nextSeqno == (if s.synFlag then 1 else 0) + s.stream.readCount + (if s.finFlag then 1 else 0)
    && (s.finFlag ==> s.synFlag && s.stream.ended)
    && (!s.synFlag ==> s.stream.readCount == 0)
  }

  ghost predicate Sound(s: Sender) {
    Accounted(s) && Timed(s) && Ledger(s)
  }

  /** The bytes handed to the sender so far, of which the sender has taken the first `readCount`. */
  ghost predicate Feeds(s: Sender, input: seq<byte>) {
    && |input| == s.stream.writCount
    && s.stream.buffer == input[s.stream.readCount..]
  }

  ghost function Taken(s: Sender, input: seq<byte>): seq<byte>
    requires Feeds(s, input)
  {
    input[..s.stream.readCount]
  }

  ghost predicate CarriesInFlight(s: Sender, seg: TcpSegment, taken: seq<byte>) {
    exists k: nat :: OldestSeqno(s) <= k <= s.nextSeqno && Carries(seg, k, s.isn, taken, s.finFlag)
  }

  /** Every segment kept or queued is a piece of the stream at its place, not yet stamped with an acknowledgement. */
  ghost predicate Truthful(s: Sender, input: seq<byte>) {
    && Feeds(s, input)
    && (forall k :: k in s.outstands ==>
          !s.outstands[k].header.ack && Carries(s.outstands[k], k, s.isn, Taken(s, input), s.finFlag))
    && (forall seg :: seg in s.segmentsOut ==> !seg.header.ack && CarriesInFlight(s, seg, Taken(s, input)))
  }

  /** How one operation may change a sender, as seen by whoever depends on its stream. */
  ghost predicate Evolves(s: Sender, input: seq<byte>, s': Sender, input': seq<byte>) {
    && Feeds(s, input) && Feeds(s', input')
    && s'.isn == s.isn && s'.initialTimeout == s.initialTimeout
    && s.stream.readCount <= s'.stream.readCount && s.nextSeqno <= s'.nextSeqno
    && (s.synFlag ==> s'.synFlag)
    && Extends(Taken(s, input), s.finFlag, Taken(s', input'), s'.finFlag)
  }

  lemma FlightIsSum(s: Sender)
    requires Accounted(s)
    ensures s.flightBytes == FlightSum(s.outstands)
    ensures s.outstands == map[] <==> s.flightBytes == 0
    ensures s.outstands == map[] <==> s.ackno == s.nextSeqno
  {
    TilesSum(s.outstands, OldestSeqno(s), s.nextSeqno);
    if s.outstands.Keys != {} { TilesFirst(s.outstands, OldestSeqno(s), s.nextSeqno); }
  }

  lemma NewSenderSound(capacity: nat, timeout: nat, isn: uint32)
    ensures Sound(NewSender(capacity, timeout, isn)) && Truthful(NewSender(capacity, timeout, isn), [])
  {
  }

  // ----- Sending -----

  lemma SendAccounted(s: Sender, seg: TcpSegment)
    requires Accounted(s) && seg.SequenceLength() > 0
    ensures Accounted(s.SendSegments(seg)) && OldestSeqno(s.SendSegments(seg)) == OldestSeqno(s)
    ensures s.SendSegments(seg).outstands != map[]
  {
    var sent := seg.(header := seg.header.(seqno := Wrap(s.nextSeqno, s.isn)));
    TilesAppend(s.outstands, OldestSeqno(s), s.nextSeqno, sent);
    TilesBounds(s.outstands, OldestSeqno(s), s.nextSeqno);
    FlightIsSum(s);
    assert s.nextSeqno in s.SendSegments(seg).outstands;
  }

  /** Sending keeps what was true of the segments, if the new one is a piece of the stream too. */
  lemma SendTruthful(s: Sender, seg: TcpSegment, input: seq<byte>)
    requires Accounted(s) && Truthful(s, input) && seg.SequenceLength() > 0 && !seg.header.ack
    requires var sent := seg.(header := seg.header.(seqno := Wrap(s.nextSeqno, s.isn)));
             Carries(sent, s.nextSeqno, s.isn, Taken(s, input), s.finFlag)
    ensures Truthful(s.SendSegments(seg), input)
  {
    hide Carries;
    SendAccounted(s, seg);
    var s' := s.SendSegments(seg);
    forall x | x in s'.segmentsOut ensures !x.header.ack && CarriesInFlight(s', x, Taken(s', input)) {
      if x in s.segmentsOut {
        var k: nat :| OldestSeqno(s) <= k <= s.nextSeqno && Carries(x, k, s.isn, Taken(s, input), s.finFlag);
        assert Carries(x, k, s'.isn, Taken(s', input), s'.finFlag);
      } else {
        assert Carries(x, s.nextSeqno, s'.isn, Taken(s', input), s'.finFlag);
      }
    }
  }

  /** Reading on in the stream, or finishing it at its end, leaves the earlier segments true. */
  lemma TruthfulInExtension(s: Sender, s': Sender, input: seq<byte>, input': seq<byte>)
    requires Truthful(s, input) && Feeds(s', input')
    requires Extends(Taken(s, input), s.finFlag, Taken(s', input'), s'.finFlag)
    requires s'.isn == s.isn && s'.segmentsOut == s.segmentsOut && s'.outstands == s.outstands
    requires s'.nextSeqno == s.nextSeqno && s'.flightBytes == s.flightBytes
    ensures Truthful(s', input')
  {
    forall k | k in s'.outstands
      ensures !s'.outstands[k].header.ack && Carries(s'.outstands[k], k, s'.isn, Taken(s', input'), s'.finFlag)
    {
      CarriesInExtension(s.outstands[k], k, s.isn, Taken(s, input), s.finFlag, Taken(s', input'), s'.finFlag);
    }
    forall x | x in s'.segmentsOut ensures !x.header.ack && CarriesInFlight(s', x, Taken(s', input')) {
      var k: nat :| OldestSeqno(s) <= k <= s.nextSeqno && Carries(x, k, s.isn, Taken(s, input), s.finFlag);
      CarriesInExtension(x, k, s.isn, Taken(s, input), s.finFlag, Taken(s', input'), s'.finFlag);
    }
  }

  /** The stream after one chunk, with the FIN decided. */
  function ReadChunk(s: Sender): Sender {
    s.(stream := AfterChunk(s), finFlag := s.finFlag || FinishesHere(s))
  }

  lemma ReadChunkEvolves(s: Sender, input: seq<byte>)
    requires Feeds(s, input) && !s.finFlag
    ensures Evolves(s, input, ReadChunk(s), input)
    ensures Taken(ReadChunk(s), input) == Taken(s, input) + Chunk(s)
    ensures FinishesHere(s) ==> Taken(ReadChunk(s), input) == input
  {
    var n := |Chunk(s)|;
    assert s.stream.Pop(Min(MAX_PAYLOAD_SIZE, Room(s))).buffer == s.stream.buffer[n..];
    assert s.stream.buffer[n..] == input[s.stream.readCount + n..];
    assert Chunk(s) == input[s.stream.readCount..s.stream.readCount + n];
  }

  /** The chunk is the next piece of the stream. */
  lemma ChunkCarries(s: Sender, input: seq<byte>)
    requires Ledger(s) && Feeds(s, input) && s.synFlag && !s.finFlag
    requires FinishesHere(s) || Chunk(s) != []
    ensures var seg, t := DataSegment(Chunk(s), FinishesHere(s)), ReadChunk(s);
            && seg.SequenceLength() > 0 && Feeds(t, input)
            && Carries(seg.(header := seg.header.(seqno := Wrap(s.nextSeqno, s.isn))), s.nextSeqno, s.isn,
                       Taken(t, input), t.finFlag)
  {
    ReadChunkEvolves(s, input);
    var k := s.nextSeqno;
    assert Taken(ReadChunk(s), input)[k - 1..k - 1 + |Chunk(s)|] == Chunk(s);
  }

  lemma ChunkKeeps(s: Sender, input: seq<byte>)
    requires Sound(s) && Truthful(s, input) && s.synFlag && !s.finFlag
    requires Room(s) > 0 && (FinishesHere(s) || Chunk(s) != [])
    ensures Sound(SendChunk(s)) && Truthful(SendChunk(s), input) && Evolves(s, input, SendChunk(s), input)
    ensures OldestSeqno(SendChunk(s)) == OldestSeqno(s)
  {
    hide Carries, Tiles;
    var t, seg := ReadChunk(s), DataSegment(Chunk(s), FinishesHere(s));
    ReadChunkEvolves(s, input);
    TruthfulInExtension(s, t, input, input);
    ChunkCarries(s, input);
    SendTruthful(t, seg, input);
    SendAccounted(t, seg);
  }

  lemma EvolvesFurther(s: Sender, s': Sender, s'': Sender, input: seq<byte>)
    requires Evolves(s, input, s', input) && Evolves(s', input, s'', input)
    ensures Evolves(s, input, s'', input)
  {
  }

  lemma EvolvesSame(s: Sender, input: seq<byte>)
    requires Truthful(s, input)
    ensures Evolves(s, input, s, input)
  {
  }

  /** Filling the window keeps every invariant; the loop ends because each round shrinks the stream. */
  lemma {:induction false} FillLoopKeeps(s: Sender, input: seq<byte>)
    requires Sound(s) && Truthful(s, input) && s.synFlag && !s.finFlag
    ensures Sound(FillLoop(s)) && Truthful(FillLoop(s), input) && Evolves(s, input, FillLoop(s), input)
    ensures OldestSeqno(FillLoop(s)) == OldestSeqno(s)
    decreases |s.stream.buffer|
  {
    hide Sound, Truthful, Evolves;
    EvolvesSame(s, input);
    if Room(s) == 0 {
    } else if FinishesHere(s) {
      ChunkKeeps(s, input);
    } else if Chunk(s) == [] {
      EmptyChunk(s);
    } else {
      ChunkKeeps(s, input);
      FillLoopKeeps(SendChunk(s), input);
      EvolvesFurther(s, SendChunk(s), FillLoop(s), input);
    }
  }

  lemma EmptyChunk(s: Sender)
    requires Room(s) > 0 && Chunk(s) == []
    ensures s.stream.buffer == [] && s.(stream := AfterChunk(s)) == s
  {
  }

  lemma FillKeeps(s: Sender, input: seq<byte>, sendSyn: bool)
    requires Sound(s) && Truthful(s, input)
    ensures var s' := s.FillWindow(sendSyn);
            Sound(s') && Truthful(s', input) && Evolves(s, input, s', input) && OldestSeqno(s') == OldestSeqno(s)
  {
    if !s.synFlag && sendSyn {
      FlightIsSum(s);
      var sent := SynSegment().(header := SynSegment().header.(seqno := Wrap(s.nextSeqno, s.isn)));
      assert Carries(sent, 0, s.isn, Taken(s, input), s.finFlag);
      SendTruthful(s, SynSegment(), input);
      SendAccounted(s, SynSegment());
      var t := s.SendSegments(SynSegment());
      TruthfulInExtension(t, t.(synFlag := true), input, input);
    } else if s.synFlag && !s.finFlag {
      FillLoopKeeps(s, input);
    }
  }

  // ----- Acknowledgements -----

  const MAX_SEQNO := U63

  /** Stored sequence numbers unwrap to their keys while less than 2^31 is in flight. */
  ghost predicate Unwrappable(s: Sender) {
    s.flightBytes < U31 && s.nextSeqno <= MAX_SEQNO
  }

  /** The state inside the loop that discards acknowledged segments. */
  ghost predicate Popping(s: Sender) {
    && 0 <= s.flightBytes <= s.nextSeqno
    && Unwrappable(s)
    && Tiles(s.outstands, OldestSeqno(s), s.nextSeqno)
    && (forall k :: k in s.outstands ==> s.outstands[k].header.seqno == Wrap(k, s.isn))
    && OldestSeqno(s) <= s.ackno <= s.nextSeqno
    && s.leftTimeout == s.initialTimeout
  }

  ghost predicate SameButPopped(s: Sender, s': Sender) {
    && s' == s.(outstands := s'.outstands, flightBytes := s'.flightBytes,
                retransmitCount := s'.retransmitCount, retransmitTimeout := s'.retransmitTimeout)
    && (if s'.outstands == s.outstands then s' == s
        else s'.retransmitCount == 0 && s'.retransmitTimeout == s.initialTimeout)
  }

  ghost predicate KeepsUnacked(s: Sender, s': Sender) {
    && (forall k :: k in s'.outstands <==> k in s.outstands && s.ackno < k + s.outstands[k].SequenceLength())
    && (forall k :: k in s'.outstands ==> s'.outstands[k] == s.outstands[k])
  }

  lemma FirstIsAckedIff(s: Sender)
    requires Popping(s) && s.outstands.Keys != {}
    ensures OldestSeqno(s) in s.outstands && MinKey(s.outstands) == OldestSeqno(s)
    ensures FirstIsAcked(s) <==> s.ackno >= OldestSeqno(s) + s.outstands[OldestSeqno(s)].SequenceLength()
  {
    TilesFirst(s.outstands, OldestSeqno(s), s.nextSeqno);
    UnwrapOfWrap(OldestSeqno(s), s.isn, s.ackno);
  }

  lemma PopFirstStep(s: Sender)
    requires Popping(s) && s.outstands.Keys != {} && FirstIsAcked(s)
    ensures var f := PopFirst(s);
            && Popping(f) && OldestSeqno(f) > OldestSeqno(s)
            && f.outstands == s.outstands - {OldestSeqno(s)}
            && s.ackno >= OldestSeqno(s) + s.outstands[OldestSeqno(s)].SequenceLength()
  {
    FirstIsAckedIff(s);
    TilesBounds(s.outstands, OldestSeqno(s), s.nextSeqno);
  }

  lemma KeepsUnackedStep(s: Sender, f: Sender, s': Sender)
    requires Popping(s) && OldestSeqno(s) in s.outstands
    requires f.outstands == s.outstands - {OldestSeqno(s)} && f.ackno == s.ackno
    requires s.ackno >= OldestSeqno(s) + s.outstands[OldestSeqno(s)].SequenceLength()
    requires KeepsUnacked(f, s')
    ensures KeepsUnacked(s, s') && OldestSeqno(s) !in s'.outstands
  {
  }

  /** The loop removes exactly the segments that are acknowledged in full. */
  lemma {:induction false} PopAckedExactly(s: Sender)
    requires Popping(s)
    ensures var s' := PopAcked(s);
            && Popping(s') && SameButPopped(s, s') && KeepsUnacked(s, s')
            && OldestSeqno(s') >= OldestSeqno(s)
            && (if s'.outstands == map[] then s.ackno == s.nextSeqno
                else s.ackno < OldestSeqno(s') + s'.outstands[OldestSeqno(s')].SequenceLength())
    decreases |s.outstands|
  {
    if s.outstands.Keys != {} {
      FirstIsAckedIff(s);
      if FirstIsAcked(s) {
        MapRemoveShrinks(s.outstands, MinKey(s.outstands));
        PopFirstStep(s);
        PopAckedExactly(PopFirst(s));
        KeepsUnackedStep(s, PopFirst(s), PopAcked(PopFirst(s)));
      } else {
        FirstUnackedKeepsAll(s);
      }
    }
  }

  lemma {:induction false} TilesAfterFirst(m: map<nat, TcpSegment>, base: nat, next: nat, k: nat)
    requires Tiles(m, base, next) && k in m && base < next
    ensures k + m[k].SequenceLength() >= base + m[base].SequenceLength()
  {
    TilesBounds(m - {base}, base + m[base].SequenceLength(), next);
    assert k == base || k in m - {base};
  }

  lemma FirstUnackedKeepsAll(s: Sender)
    requires Popping(s) && s.outstands.Keys != {} && OldestSeqno(s) in s.outstands
    requires s.ackno < OldestSeqno(s) + s.outstands[OldestSeqno(s)].SequenceLength()
    ensures KeepsUnacked(s, s)
  {
    TilesFirst(s.outstands, OldestSeqno(s), s.nextSeqno);
    forall k | k in s.outstands ensures s.ackno < k + s.outstands[k].SequenceLength() {
      TilesAfterFirst(s.outstands, OldestSeqno(s), s.nextSeqno, k);
    }
  }

  /** The sender between an advancing acknowledgement and the refill of the window. */
  function AfterPop(s: Sender, absolute: nat, window: uint16): Sender {
    SettleTimer(PopAcked(s.(windowSize := window, ackno := absolute, leftTimeout := s.initialTimeout)))
  }

  ghost predicate PoppedTo(s: Sender, t: Sender, absolute: nat, window: uint16) {
    && t == s.(outstands := t.outstands, flightBytes := t.flightBytes, retransmitCount := t.retransmitCount,
               retransmitTimeout := t.retransmitTimeout, windowSize := window, ackno := absolute,
               leftTimeout := s.initialTimeout, timerStart := t.timerStart)
    && OldestSeqno(t) >= OldestSeqno(s)
    && (forall k :: k in t.outstands <==> k in s.outstands && absolute < k + s.outstands[k].SequenceLength())
    && (forall k :: k in t.outstands ==> t.outstands[k] == s.outstands[k])
  }

  lemma AfterPopSound(s: Sender, absolute: nat, window: uint16)
    requires Sound(s) && Unwrappable(s)
    requires s.ackno < absolute <= s.nextSeqno
    ensures var t := AfterPop(s, absolute, window);
            Sound(t) && Unwrappable(t) && PoppedTo(s, t, absolute, window)
  {
    var u := s.(windowSize := window, ackno := absolute, leftTimeout := s.initialTimeout);
    assert OldestSeqno(s) <= s.ackno by { FlightIsSum(s); }
    PopAckedExactly(u);
    var p := PopAcked(u);
    assert (p.outstands == map[] <==> p.flightBytes == 0) by {
      TilesSum(p.outstands, OldestSeqno(p), p.nextSeqno);
      if p.outstands.Keys != {} { TilesFirst(p.outstands, OldestSeqno(p), p.nextSeqno); }
    }
    assert s.outstands != map[] by { FlightIsSum(s); }
    TimeoutFactor(s);
  }

  lemma TimeoutFactor(s: Sender)
    requires Timed(s)
    ensures s.initialTimeout <= s.retransmitTimeout && s.initialTimeout * Pow2(0) == s.initialTimeout
  {
    Scaling(s.initialTimeout, Pow2(s.retransmitCount));
  }

  lemma Scaling(a: nat, b: nat)
    requires b >= 1
    ensures a * b >= a
  {
  }

  lemma AfterPopTruthful(s: Sender, input: seq<byte>, absolute: nat, window: uint16)
    requires Truthful(s, input) && s.segmentsOut == []
    requires PoppedTo(s, AfterPop(s, absolute, window), absolute, window)
    ensures Truthful(AfterPop(s, absolute, window), input)
  {
  }

  lemma AfterPopKeeps(s: Sender, input: seq<byte>, absolute: nat, window: uint16)
    requires Sound(s) && Truthful(s, input) && s.segmentsOut == [] && Unwrappable(s)
    requires s.ackno < absolute <= s.nextSeqno
    ensures var t := AfterPop(s, absolute, window);
            Sound(t) && Truthful(t, input) && Unwrappable(t) && PoppedTo(s, t, absolute, window)
  {
    AfterPopSound(s, absolute, window);
    AfterPopTruthful(s, input, absolute, window);
  }

  /** Filling the window only adds segments behind the ones that are there. */
  ghost predicate OnlyAppends(s: Sender, s': Sender) {
    && s.nextSeqno <= s'.nextSeqno
    && (forall k :: k in s.outstands ==> k in s'.outstands && s'.outstands[k] == s.outstands[k])
    && (forall k :: k in s'.outstands ==> k in s.outstands || k >= s.nextSeqno)
    && s'.ackno == s.ackno && s'.windowSize == s.windowSize && s'.isn == s.isn
    && s'.leftTimeout == s.leftTimeout && s'.retransmitCount == s.retransmitCount
    && s'.retransmitTimeout == s.retransmitTimeout && s'.initialTimeout == s.initialTimeout
    && s'.stream.writCount == s.stream.writCount && s'.stream.capacity == s.stream.capacity
    && s'.stream.ended == s.stream.ended && s'.stream.error == s.stream.error
  }

  lemma SendOnlyAppends(s: Sender, seg: TcpSegment)
    requires Accounted(s)
    ensures OnlyAppends(s, s.SendSegments(seg))
  {
    TilesBounds(s.outstands, OldestSeqno(s), s.nextSeqno);
  }

  lemma {:induction false} FillLoopAppends(s: Sender, input: seq<byte>)
    requires Sound(s) && Truthful(s, input) && s.synFlag && !s.finFlag
    ensures OnlyAppends(s, FillLoop(s))
    decreases |s.stream.buffer|
  {
    hide Truthful, Ledger, FinishesHere, DataSegment, Carries, Feeds;
    if Room(s) != 0 && (FinishesHere(s) || Chunk(s) != []) {
      SendOnlyAppends(ReadChunk(s), DataSegment(Chunk(s), FinishesHere(s)));
      ChunkKeeps(s, input);
      if !FinishesHere(s) { FillLoopAppends(SendChunk(s), input); }
    }
  }

  lemma FillAppends(s: Sender, input: seq<byte>, sendSyn: bool)
    requires Sound(s) && Truthful(s, input)
    ensures OnlyAppends(s, s.FillWindow(sendSyn))
  {
    if !s.synFlag && sendSyn {
      SendOnlyAppends(s, SynSegment());
    } else if s.synFlag && !s.finFlag {
      FillLoopAppends(s, input);
    }
  }

  lemma QuietAckKeeps(s: Sender, input: seq<byte>, number: uint32, window: uint16)
    requires Sound(s) && Truthful(s, input) && s.segmentsOut == [] && Unwrappable(s)
    ensures var s' := s.AckReceived(number, window).0;
            Sound(s') && Truthful(s', input) && Evolves(s, input, s', input)
  {
    hide Sender.FillWindow;
    var absolute := Unwrap(number, s.isn, s.ackno);
    if s.ackno < absolute <= s.nextSeqno {
      AfterPopKeeps(s, input, absolute, window);
      FillKeeps(AfterPop(s, absolute, window), input, true);
    }
  }

  /** The effect of an acknowledgement on what is outstanding: number and window are taken over, exactly
      the fully acknowledged segments go, the rest stays as it was, and only new data is added. An
      acceptable number is one for which something has been sent. */
  ghost predicate RemovesExactly(s: Sender, number: uint32, window: uint16, s': Sender, acceptable: bool) {
    var absolute := Unwrap(number, s.isn, s.ackno);
    && (acceptable <==> absolute <= s.nextSeqno)
    && s'.windowSize == window
    && s'.ackno == (if s.ackno < absolute <= s.nextSeqno then absolute else s.ackno)
    && (forall k :: k in s.outstands ==> (k in s'.outstands <==> s'.ackno < k + s.outstands[k].SequenceLength()))
    && (forall k :: k in s.outstands && k in s'.outstands ==> s'.outstands[k] == s.outstands[k])
    && (forall k :: k in s'.outstands ==> k in s.outstands || k >= s.nextSeqno)
  }

  lemma QuietAckRemovesExactly(s: Sender, input: seq<byte>, number: uint32, window: uint16)
    requires Sound(s) && Truthful(s, input) && s.segmentsOut == [] && Unwrappable(s)
    ensures var (s', acceptable) := s.AckReceived(number, window);
            RemovesExactly(s, number, window, s', acceptable)
  {
    var absolute := Unwrap(number, s.isn, s.ackno);
    if s.ackno < absolute <= s.nextSeqno {
      var t := AfterPop(s, absolute, window);
      AfterPopKeeps(s, input, absolute, window);
      FillAppends(t, input, true);
      TilesBounds(s.outstands, OldestSeqno(s), s.nextSeqno);
      forall k | k in s.outstands
        ensures k in t.FillWindow(true).outstands <==> absolute < k + s.outstands[k].SequenceLength()
      {
        assert k in t.outstands || k < s.nextSeqno;
      }
    } else {
      NothingAcked(s);
    }
  }

  lemma AckRemovesExactly(s: Sender, input: seq<byte>, number: uint32, window: uint16)
    requires Genuine(s, input) && Unwrappable(s)
    ensures var (s', acceptable) := s.AckReceived(number, window);
            RemovesExactly(s, number, window, s', acceptable)
  {
    QueueBehind(s);
    AckBehind(s.segmentsOut, TakeQueue(s), number, window);
    QuietAckRemovesExactly(TakeQueue(s), input, number, window);
  }

  lemma NothingAcked(s: Sender)
    requires Accounted(s)
    ensures forall k :: k in s.outstands ==> s.ackno < k + s.outstands[k].SequenceLength()
  {
    forall k | k in s.outstands ensures s.ackno < k + s.outstands[k].SequenceLength() {
      TilesFirst(s.outstands, OldestSeqno(s), s.nextSeqno);
      TilesAfterFirst(s.outstands, OldestSeqno(s), s.nextSeqno, k);
    }
  }

  // ----- The remaining operations -----

  lemma TickSound(s: Sender, ms: nat)
    requires Sound(s)
    ensures Sound(s.Tick(ms)) && OldestSeqno(s.Tick(ms)) == OldestSeqno(s)
  {
    if s.outstands.Keys != {} {
      TilesFirst(s.outstands, OldestSeqno(s), s.nextSeqno);
      DoubledTimeout(s);
    } else {
      TimeoutFactor(s);
    }
  }

  lemma DoubledTimeout(s: Sender)
    requires s.retransmitTimeout == s.initialTimeout * Pow2(s.retransmitCount)
    ensures s.retransmitTimeout * 2 == s.initialTimeout * Pow2(s.retransmitCount + 1)
  {
  }

  lemma TickTruthful(s: Sender, input: seq<byte>, ms: nat)
    requires Accounted(s) && Truthful(s, input)
    ensures Truthful(s.Tick(ms), input)
  {
    if s.outstands.Keys != {} {
      TilesFirst(s.outstands, OldestSeqno(s), s.nextSeqno);
      var s', first := s.Tick(ms), MinKey(s.outstands);
      assert Carries(s.outstands[first], first, s.isn, Taken(s, input), s.finFlag);
      QueueTruthful(s, s', s.outstands[first], first, input);
    }
  }

  /** A queue extended by one more piece of the stream is still truthful. */
  lemma QueueTruthful(s: Sender, s': Sender, seg: TcpSegment, k: nat, input: seq<byte>)
    requires Truthful(s, input)
    requires s'.stream == s.stream && s'.outstands == s.outstands && s'.isn == s.isn && s'.finFlag == s.finFlag
    requires s'.nextSeqno == s.nextSeqno && s'.flightBytes == s.flightBytes
    requires s'.segmentsOut == s.segmentsOut || s'.segmentsOut == s.segmentsOut + [seg]
    requires OldestSeqno(s) <= k <= s.nextSeqno && Carries(seg, k, s.isn, Taken(s, input), s.finFlag)
    requires !seg.header.ack
    ensures Truthful(s', input)
  {
    forall x | x in s'.segmentsOut ensures !x.header.ack && CarriesInFlight(s', x, Taken(s', input)) {
      if x in s.segmentsOut {
        var j: nat :| OldestSeqno(s) <= j <= s.nextSeqno && Carries(x, j, s.isn, Taken(s, input), s.finFlag);
        assert Carries(x, j, s'.isn, Taken(s', input), s'.finFlag);
      } else {
        assert Carries(x, k, s'.isn, Taken(s', input), s'.finFlag);
      }
    }
  }

  lemma TickKeeps(s: Sender, input: seq<byte>, ms: nat)
    requires Sound(s) && Truthful(s, input)
    ensures Sound(s.Tick(ms)) && Truthful(s.Tick(ms), input) && Evolves(s, input, s.Tick(ms), input)
    ensures OldestSeqno(s.Tick(ms)) == OldestSeqno(s)
  {
    TickSound(s, ms);
    TickTruthful(s, input, ms);
  }

  /** A retransmission is the oldest outstanding segment, unchanged; it happens when the timer runs out. */
  lemma TickRetransmits(s: Sender, ms: nat)
    requires Sound(s)
    ensures s.Tick(ms).segmentsOut ==
            if s.outstands != map[] && s.leftTimeout <= ms
            then s.segmentsOut + [s.outstands[OldestSeqno(s)]] else s.segmentsOut
    ensures s.outstands != map[] && s.leftTimeout <= ms ==>
              OldestSeqno(s) <= s.ackno < OldestSeqno(s) + s.outstands[OldestSeqno(s)].SequenceLength()
  {
    if s.outstands.Keys != {} { TilesFirst(s.outstands, OldestSeqno(s), s.nextSeqno); }
  }

  /** The timer over one tick: it runs down; when it has run out, the interval and the count of retransmissions
      grow if the peer's window is open, and stay as they are if it is closed, and the timer starts again. */
  lemma TickOutcome(s: Sender, ms: nat)
    requires Sound(s)
    ensures var t, doubles := s.Tick(ms), s.windowSize > 0;
            if s.outstands == map[] then t == s
            else if ms < s.leftTimeout then t == s.(leftTimeout := s.leftTimeout - ms)
            else
              && t.retransmitCount == s.retransmitCount + (if doubles then 1 else 0)
              && t.leftTimeout == t.retransmitTimeout == (if doubles then 2 else 1) * s.retransmitTimeout
              && t == s.(segmentsOut := s.segmentsOut + [s.outstands[OldestSeqno(s)]], leftTimeout := t.leftTimeout,
                         retransmitTimeout := t.retransmitTimeout, retransmitCount := t.retransmitCount)
  {
    if s.outstands.Keys != {} { TilesFirst(s.outstands, OldestSeqno(s), s.nextSeqno); } else { TimeoutFactor(s); }
  }

  function WriteStream(s: Sender, data: seq<byte>): Sender {
    s.(stream := s.stream.Write(data))
  }

  function EndStream(s: Sender): Sender {
    s.(stream := s.stream.(ended := true))
  }

  function FailStream(s: Sender): Sender {
    s.(stream := s.stream.(error := true))
  }

  function TakeQueue(s: Sender): Sender {
    s.(segmentsOut := [])
  }

  lemma WriteKeeps(s: Sender, input: seq<byte>, data: seq<byte>)
    requires Sound(s) && Truthful(s, input)
    ensures var s' := WriteStream(s, data);
            var input' := input + data[..Min(|data|, s.stream.Remaining())];
            Sound(s') && Truthful(s', input') && Evolves(s, input, s', input')
  {
    var s' := WriteStream(s, data);
    var input' := input + data[..Min(|data|, s.stream.Remaining())];
    assert input'[..s.stream.readCount] == input[..s.stream.readCount];
    TruthfulInExtension(s, s', input, input');
  }

  lemma EmptyKeeps(s: Sender, input: seq<byte>)
    requires Sound(s) && Truthful(s, input)
    ensures var s' := s.SendEmptySegment();
            Sound(s') && Truthful(s', input) && Evolves(s, input, s', input)
  {
    hide CarriesInFlight;
    var empty := TcpSegment(DEFAULT_HEADER.(seqno := Wrap(s.nextSeqno, s.isn)), []);
    assert Carries(empty, s.nextSeqno, s.isn, Taken(s, input), s.finFlag);
    QueueTruthful(s, s.SendEmptySegment(), empty, s.nextSeqno, input);
  }

  /** Ending, failing or emptying the queue touches nothing the invariants speak of. */
  lemma FlagsKeep(s: Sender, input: seq<byte>)
    requires Sound(s) && Truthful(s, input)
    ensures Sound(EndStream(s)) && Truthful(EndStream(s), input) && Evolves(s, input, EndStream(s), input)
    ensures Sound(FailStream(s)) && Truthful(FailStream(s), input) && Evolves(s, input, FailStream(s), input)
    ensures Sound(TakeQueue(s)) && Truthful(TakeQueue(s), input) && Evolves(s, input, TakeQueue(s), input)
  {
    hide Carries;
    TruthfulInExtension(s, EndStream(s), input, input);
    TruthfulInExtension(s, FailStream(s), input, input);
  }

  // ----- Segments that are still queued play no part -----

  function Behind(queue: seq<TcpSegment>, s: Sender): Sender {
    s.(segmentsOut := queue + s.segmentsOut)
  }

  lemma SendBehind(queue: seq<TcpSegment>, s: Sender, seg: TcpSegment)
    ensures Behind(queue, s).SendSegments(seg) == Behind(queue, s.SendSegments(seg))
  {
    var sent := seg.(header := seg.header.(seqno := Wrap(s.nextSeqno, s.isn)));
    assert (queue + s.segmentsOut) + [sent] == queue + (s.segmentsOut + [sent]);
  }

  lemma {:induction false} FillLoopBehind(queue: seq<TcpSegment>, s: Sender)
    ensures FillLoop(Behind(queue, s)) == Behind(queue, FillLoop(s))
    decreases |s.stream.buffer|
  {
    hide DataSegment;
    if Room(s) != 0 && (FinishesHere(s) || Chunk(s) != []) {
      SendBehind(queue, ReadChunk(s), DataSegment(Chunk(s), FinishesHere(s)));
      if !FinishesHere(s) { FillLoopBehind(queue, SendChunk(s)); }
    }
  }

  lemma FillBehind(queue: seq<TcpSegment>, s: Sender, sendSyn: bool)
    ensures Behind(queue, s).FillWindow(sendSyn) == Behind(queue, s.FillWindow(sendSyn))
  {
    if s.synFlag { FillLoopBehind(queue, s); } else { SendBehind(queue, s, SynSegment()); }
  }

  lemma {:induction false} PopBehind(queue: seq<TcpSegment>, s: Sender)
    ensures PopAcked(Behind(queue, s)) == Behind(queue, PopAcked(s))
    decreases |s.outstands|
  {
    hide Unwrap, TcpSegment.SequenceLength;
    if s.outstands.Keys != {} && FirstIsAcked(s) {
      MapRemoveShrinks(s.outstands, MinKey(s.outstands));
      PopBehind(queue, PopFirst(s));
    }
  }

  lemma AckBehind(queue: seq<TcpSegment>, s: Sender, number: uint32, window: uint16)
    ensures Behind(queue, s).AckReceived(number, window)
            == (Behind(queue, s.AckReceived(number, window).0), s.AckReceived(number, window).1)
  {
    var absolute := Unwrap(number, s.isn, s.ackno);
    if s.ackno < absolute <= s.nextSeqno {
      PopBehind(queue, s.(windowSize := window, ackno := absolute, leftTimeout := s.initialTimeout));
      FillBehind(queue, AfterPop(s, absolute, window), true);
    }
  }

  /** A segment of the stream that has been sent, however long ago. */
  ghost predicate Emits(s: Sender, seg: TcpSegment, taken: seq<byte>) {
    exists k: nat :: k <= s.nextSeqno && Carries(seg, k, s.isn, taken, s.finFlag)
  }

  /** The invariants of a sender whose queue is taken away at any time, or never. */
  ghost predicate Genuine(s: Sender, input: seq<byte>) {
    && Sound(s) && Truthful(TakeQueue(s), input)
    && forall seg :: seg in s.segmentsOut ==> !seg.header.ack && Emits(s, seg, Taken(s, input))
  }

  lemma TruthfulIsGenuine(s: Sender, input: seq<byte>)
    requires Sound(s) && Truthful(s, input)
    ensures Genuine(s, input)
  {
    FlagsKeep(s, input);
    forall seg | seg in s.segmentsOut ensures Emits(s, seg, Taken(s, input)) {
      assert CarriesInFlight(s, seg, Taken(s, input));
    }
  }

  /** What an operation does to a sender with an empty queue, it does behind any queue. */
  lemma GenuineBehind(queue: seq<TcpSegment>, s: Sender, s': Sender, input: seq<byte>, input': seq<byte>)
    requires Genuine(Behind(queue, s), input) && s.segmentsOut == []
    requires Sound(s') && Truthful(s', input') && Evolves(s, input, s', input')
    ensures Genuine(Behind(queue, s'), input') && Evolves(Behind(queue, s), input, Behind(queue, s'), input')
  {
    hide Truthful, Wrap;
    TruthfulIsGenuine(s', input');
    var old', new' := Behind(queue, s), Behind(queue, s');
    forall seg | seg in new'.segmentsOut ensures !seg.header.ack && Emits(new', seg, Taken(new', input')) {
      if seg in queue {
        assert seg in old'.segmentsOut;
        var k: nat :| k <= s.nextSeqno && Carries(seg, k, s.isn, Taken(old', input), s.finFlag);
        CarriesInExtension(seg, k, s.isn, Taken(s, input), s.finFlag, Taken(s', input'), s'.finFlag);
      } else {
        assert seg in s'.segmentsOut && Emits(s', seg, Taken(s', input'));
      }
    }
  }

  lemma QueueBehind(s: Sender)
    ensures Behind(s.segmentsOut, TakeQueue(s)) == s
  {
    assert s.segmentsOut + [] == s.segmentsOut;
  }

  /** An acknowledgement with any number and window keeps every invariant, whatever is still queued. */
  lemma AckKeeps(s: Sender, input: seq<byte>, number: uint32, window: uint16)
    requires Genuine(s, input) && Unwrappable(s)
    ensures var s' := s.AckReceived(number, window).0;
            Genuine(s', input) && Evolves(s, input, s', input)
  {
    hide Sender.AckReceived, Truthful, Evolves;
    var q := TakeQueue(s);
    QueueBehind(s);
    AckBehind(s.segmentsOut, q, number, window);
    QuietAckKeeps(q, input, number, window);
    GenuineBehind(s.segmentsOut, q, q.AckReceived(number, window).0, input, input);
  }

  // ----- The object -----

  class TCPSender {
    const isn: uint32
    var segmentsOut: seq<TcpSegment>
    const initialTimeout: nat
    const stream: ByteStream
    var nextSeqno: nat
    var outstands: map<nat, TcpSegment>
    var windowSize: uint16
    var ackno: nat
    var flightBytes: int
    var leftTimeout: nat
    var retransmitCount: nat
    var timerStart: bool
    var synFlag: bool
    var finFlag: bool
    var retransmitTimeout: nat

    predicate Valid()
      reads this, stream
    {
      stream.Valid()
    }

    function View(): Sender
      requires stream.Valid()
      reads this, stream
    {
      Sender(isn, segmentsOut, initialTimeout, stream.View(), nextSeqno, outstands, windowSize, ackno, flightBytes,
             leftTimeout, retransmitCount, timerStart, synFlag, finFlag, retransmitTimeout)
    }

    constructor (capacity: nat, timeout: nat, isn: uint32)
      ensures Valid() && fresh(stream) && View() == NewSender(capacity, timeout, isn)
    {
      this.isn := isn;
      segmentsOut := [];
      initialTimeout := timeout;
      stream := new ByteStream(capacity);
      nextSeqno, outstands, windowSize, ackno, flightBytes := 0, map[], 1, 0, 0;
      leftTimeout, retransmitCount, timerStart := timeout, 0, false;
      synFlag, finFlag, retransmitTimeout := false, false, timeout;
    }

    method SendSegments(seg: TcpSegment)
      requires Valid()
      modifies this
      ensures Valid() && View() == old(View()).SendSegments(seg)
    {
      var sent := seg.(header := seg.header.(seqno := Wrap(nextSeqno, isn)));
      outstands := outstands[nextSeqno := sent];
      flightBytes := flightBytes + sent.SequenceLength();
      nextSeqno := nextSeqno + sent.SequenceLength();
      segmentsOut := segmentsOut + [sent];
      if !timerStart {
        timerStart := true;
      }
      // The source also restarts the timer if nothing is outstanding, but tests that after the insertion.
    }

    method SendEmptySegment()
      requires Valid()
      modifies this
      ensures Valid() && View() == old(View()).SendEmptySegment()
    {
      var header := DEFAULT_HEADER.(seqno := Wrap(nextSeqno, isn));
      segmentsOut := segmentsOut + [TcpSegment(header, [])];
    }

    method FillWindow(sendSyn: bool)
      requires Valid()
      modifies this, stream
      ensures Valid() && View() == old(View()).FillWindow(sendSyn)
    {
      if !synFlag {
        if sendSyn {
          SendSegments(SynSegment());
          synFlag := true;
        }
        return;
      }
      if finFlag {
        return;
      }
      var window := if windowSize > 0 then windowSize else 1;
      var remain := (window - (nextSeqno - ackno)) % U64;
      ghost var was := View();
      while remain != 0
        invariant Valid() && !finFlag && synFlag && window == WindowOf(View()) && remain == Room(View())
        invariant FillLoop(View()) == FillLoop(was)
        decreases |stream.buffer|
      {
        var more := SendNext(remain);
        if !more {
          return;
        }
        remain := (window - (nextSeqno - ackno)) % U64;
      }
    }

    /** One round of the loop of `FillWindow`. */
    method SendNext(remain: nat) returns (more: bool)
      requires Valid() && !finFlag && remain == Room(View()) != 0
      modifies this, stream
      ensures Valid() && windowSize == old(windowSize) && synFlag == old(synFlag)
      ensures more == (!FinishesHere(old(View())) && Chunk(old(View())) != [])
      ensures View() == if more || FinishesHere(old(View())) then SendChunk(old(View()))
                        else old(View()).(stream := AfterChunk(old(View())))
      ensures more ==> |stream.buffer| < old(|stream.buffer|) && !finFlag
    {
      var size := Min(MAX_PAYLOAD_SIZE, remain);
      var bytes := stream.Read(size);
      var seg := DataSegment(bytes, false);
      if stream.View().Eof() && seg.SequenceLength() < size {
        finFlag := true;
        SendSegments(seg.(header := seg.header.(fin := true)));
        return false;
      }
      if seg.SequenceLength() == 0 {
        return false;
      }
      SendSegments(seg);
      return true;
    }

    method AckReceived(number: uint32, window: uint16) returns (acceptable: bool)
      requires Valid()
      modifies this, stream
      ensures Valid() && (View(), acceptable) == old(View()).AckReceived(number, window)
    {
      hide Sender.FillWindow, PopAcked;
      var absolute := Unwrap(number, isn, ackno);
      windowSize := window;
      if absolute > nextSeqno {
        return false;
      }
      if absolute <= ackno {
        return true;
      }
      ackno := absolute;
      leftTimeout := initialTimeout;
      DiscardAcked();
      timerStart := flightBytes != 0;
      FillWindow(true);
      return true;
    }

    /** The loop of `AckReceived`. */
    method DiscardAcked()
      requires Valid()
      modifies this
      ensures Valid() && View() == PopAcked(old(View()))
    {
      while outstands.Keys != {} && FirstIsAcked(View())
        invariant Valid() && PopAcked(View()) == PopAcked(old(View()))
        decreases |outstands|
      {
        MapRemoveShrinks(outstands, MinKey(outstands));
        DiscardFirst();
      }
    }

    method DiscardFirst()
      requires Valid() && outstands.Keys != {}
      modifies this
      ensures Valid() && View() == PopFirst(old(View()))
    {
      var k := MinKey(outstands);
      flightBytes := flightBytes - outstands[k].SequenceLength();
      outstands := outstands - {k};
      retransmitCount := 0;
      retransmitTimeout := initialTimeout;
      leftTimeout := retransmitTimeout;
    }

    method Tick(ms: nat)
      requires Valid()
      modifies this
      ensures Valid() && View() == old(View()).Tick(ms)
    {
      if outstands.Keys == {} {
        timerStart := false;
        leftTimeout := retransmitTimeout;
      }
      if timerStart {
        leftTimeout := if leftTimeout < ms then 0 else leftTimeout - ms;
        if leftTimeout == 0 {
          segmentsOut := segmentsOut + [outstands[MinKey(outstands)]];
          if windowSize != 0 {
            retransmitTimeout := retransmitTimeout * 2;
            retransmitCount := retransmitCount + 1;
          }
          leftTimeout := retransmitTimeout;
        }
      }
    }
  }
}
