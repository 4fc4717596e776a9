/** Runs of a sender: flow control, work conservation and the retransmission timer. */
module TcpSenderRuns {
  import opened Base
  import opened WrappingIntegers
  import opened TcpSegments
  import opened TcpSenders

  // ----- Flow control -----

  predicate WithinWindow(s: Sender) {
    s.nextSeqno - s.ackno <= WindowOf(s)
  }

  predicate SmallStream(s: Sender) {
    s.stream.writCount <= MAX_STREAM
  }

  lemma RoomWithin(s: Sender)
    requires s.ackno <= s.nextSeqno && WithinWindow(s)
    ensures Room(s) == WindowOf(s) - (s.nextSeqno - s.ackno)
  {
  }

  /** Past the window's right edge the subtraction wraps around: there seems to be room without end. */
  lemma RoomBeyond(s: Sender)
    requires s.ackno <= s.nextSeqno <= U63 && !WithinWindow(s)
    ensures Room(s) >= U63
  {
    var d := s.nextSeqno - s.ackno - WindowOf(s);
    assert 0 < d <= U63;
    assert (-d) % U64 == U64 - d;
  }

  lemma ChunkSize(s: Sender)
    ensures |Chunk(s)| == Min(Min(MAX_PAYLOAD_SIZE, Room(s)), |s.stream.buffer|)
    ensures |AfterChunk(s).buffer| == |s.stream.buffer| - |Chunk(s)|
  {
  }

  /** From within the window, filling ends with the window exactly full, the stream empty, or the FIN sent. */
  lemma {:induction false} FillLoopFlow(s: Sender, input: seq<byte>)
    requires Sound(s) && Truthful(s, input) && SmallStream(s) && s.synFlag && !s.finFlag && WithinWindow(s)
    ensures var s' := FillLoop(s);
            && WithinWindow(s')
            && (s'.finFlag || s'.nextSeqno - s'.ackno == WindowOf(s') || s'.stream.buffer == [])
    decreases |s.stream.buffer|
  {
    hide Feeds, Room, Taken;
    FlightIsSum(s);
    RoomWithin(s);
    ChunkSize(s);
    if Room(s) != 0 && (FinishesHere(s) || Chunk(s) != []) {
      ChunkKeeps(s, input);
      if !FinishesHere(s) { FillLoopFlow(SendChunk(s), input); }
    }
  }

  /** From beyond the window's edge, filling sends the whole stream, whatever the peer's window is. */
  lemma {:induction false} FillLoopOverruns(s: Sender, input: seq<byte>)
    requires Sound(s) && Truthful(s, input) && SmallStream(s) && s.synFlag && !s.finFlag && !WithinWindow(s)
    ensures FillLoop(s).stream.buffer == [] && !WithinWindow(FillLoop(s))
    decreases |s.stream.buffer|
  {
    FlightIsSum(s);
    RoomBeyond(s);
    ChunkSize(s);
    if FinishesHere(s) || Chunk(s) != [] {
      ChunkKeeps(s, input);
      if !FinishesHere(s) { FillLoopOverruns(SendChunk(s), input); }
    }
  }

  /** Filling respects the peer's window exactly when the window's right edge is not behind what was
      already sent; otherwise it empties the stream. */
  lemma FillRespectsWindowIff(s: Sender, input: seq<byte>, sendSyn: bool)
    requires Sound(s) && Truthful(s, input) && SmallStream(s) && s.synFlag && !s.finFlag
    ensures var s' := s.FillWindow(sendSyn);
            && (WithinWindow(s') <==> WithinWindow(s))
            && (WithinWindow(s) ==> s'.finFlag || s'.nextSeqno - s'.ackno == WindowOf(s') || s'.stream.buffer == [])
            && (!WithinWindow(s) ==> s'.stream.buffer == [])
  {
    if WithinWindow(s) { FillLoopFlow(s, input); } else { FillLoopOverruns(s, input); }
  }

  // ----- Runs -----

  datatype Event =
    | Write(data: seq<byte>) | EndInput | Fill(sendSyn: bool) | Ack(number: uint32, window: uint16)
    | Tick(ms: nat) | SendEmpty | Collect

  /** A sender with every byte its owner has handed to it. */
  datatype Fed = Fed(s: Sender, input: seq<byte>)

  function Step(f: Fed, e: Event): Fed {
    match e
    case Write(data) => Fed(WriteStream(f.s, data), f.input + data[..Min(|data|, f.s.stream.Remaining())])
    case EndInput => Fed(EndStream(f.s), f.input)
    case Fill(sendSyn) => Fed(f.s.FillWindow(sendSyn), f.input)
    case Ack(number, window) => Fed(f.s.AckReceived(number, window).0, f.input)
    case Tick(ms) => Fed(f.s.Tick(ms), f.input)
    case SendEmpty => Fed(f.s.SendEmptySegment(), f.input)
    case Collect => Fed(TakeQueue(f.s), f.input)
  }

  function Run(f: Fed, events: seq<Event>): Fed
    decreases |events|
  {
    if events == [] then f else Step(Run(f, events[..|events| - 1]), events[|events| - 1])
  }

  /** Less than 2^31 sequence numbers are in flight when an acknowledgement arrives. */
  predicate Allowed(f: Fed, e: Event) {
    e.Ack? ==> f.s.flightBytes < U31 && SmallStream(f.s)
  }

  predicate AllAllowed(f: Fed, events: seq<Event>)
    decreases |events|
  {
    events == [] ||
    (AllAllowed(f, events[..|events| - 1]) && Allowed(Run(f, events[..|events| - 1]), events[|events| - 1]))
  }

  ghost predicate Healthy(f: Fed) {
    Genuine(f.s, f.input)
  }

  /** Healthy, with everything that was queued taken away. */
  ghost predicate Cleared(f: Fed) {
    Sound(f.s) && Truthful(f.s, f.input) && f.s.segmentsOut == []
  }

  function Aside(f: Fed): Fed {
    Fed(TakeQueue(f.s), f.input)
  }

  /** Every step but a collection does the same behind a queue. */
  lemma StepAside(f: Fed, e: Event)
    requires !e.Collect?
    ensures Step(f, e) == Fed(Behind(f.s.segmentsOut, Step(Aside(f), e).s), Step(Aside(f), e).input)
  {
    var queue, s := f.s.segmentsOut, TakeQueue(f.s);
    QueueBehind(f.s);
    match e
    case Fill(sendSyn) => FillBehind(queue, s, sendSyn);
    case Ack(number, window) => AckBehind(queue, s, number, window);
    case _ =>
  }

  lemma ClearedKeeps(f: Fed, e: Event)
    requires Cleared(f) && Allowed(f, e)
    ensures var f' := Step(f, e);
            Sound(f'.s) && Truthful(f'.s, f'.input) && Evolves(f.s, f.input, f'.s, f'.input)
  {
    match e
    case Write(data) => WriteKeeps(f.s, f.input, data);
    case EndInput => FlagsKeep(f.s, f.input);
    case Fill(sendSyn) => FillKeeps(f.s, f.input, sendSyn);
    case Ack(number, window) => QuietAckKeeps(f.s, f.input, number, window);
    case Tick(ms) => TickKeeps(f.s, f.input, ms);
    case SendEmpty => EmptyKeeps(f.s, f.input);
    case Collect => FlagsKeep(f.s, f.input);
  }

  lemma StepKeeps(f: Fed, e: Event)
    requires Healthy(f) && Allowed(f, e)
    ensures Healthy(Step(f, e)) && Evolves(f.s, f.input, Step(f, e).s, Step(f, e).input)
  {
    hide Sender.FillWindow, Sender.Tick, WriteStream;
    if !e.Collect? {
      var q := Aside(f);
      QueueBehind(f.s);
      StepAside(f, e);
      ClearedKeeps(q, e);
      GenuineBehind(f.s.segmentsOut, q.s, Step(q, e).s, q.input, Step(q, e).input);
    }
  }

  /** In every reachable state the outstanding map, the cached counter, the timer and the ledger agree,
      and every segment kept or queued is the piece of the stream that belongs at its number. */
  lemma {:induction false} RunKeeps(capacity: nat, timeout: nat, isn: uint32, events: seq<Event>)
    requires AllAllowed(Fed(NewSender(capacity, timeout, isn), []), events)
    ensures Healthy(Run(Fed(NewSender(capacity, timeout, isn), []), events))
    decreases |events|
  {
    if events == [] {
      NewSenderSound(capacity, timeout, isn);
    } else {
      RunKeeps(capacity, timeout, isn, events[..|events| - 1]);
      StepKeeps(Run(Fed(NewSender(capacity, timeout, isn), []), events[..|events| - 1]), events[|events| - 1]);
    }
  }

  /** The acknowledgement does not leave the window's right edge behind what has been sent. */
  predicate KeepsEdge(f: Fed, e: Event) {
    e.Ack? ==>
      var absolute := Unwrap(e.number, f.s.isn, f.s.ackno);
      var ackno := if f.s.ackno < absolute <= f.s.nextSeqno then absolute else f.s.ackno;
      f.s.nextSeqno <= ackno + Max(e.window, 1)
  }

  predicate AllKeepEdge(f: Fed, events: seq<Event>)
    decreases |events|
  {
    events == [] ||
    (AllKeepEdge(f, events[..|events| - 1]) && KeepsEdge(Run(f, events[..|events| - 1]), events[|events| - 1]))
  }

  /** The stream stays short of the range in which sequence numbers are computed without overflow. */
  predicate AllSmall(f: Fed, events: seq<Event>)
    decreases |events|
  {
    SmallStream(Run(f, events).s) && (events == [] || AllSmall(f, events[..|events| - 1]))
  }

  predicate AlwaysWithin(f: Fed, events: seq<Event>)
    decreases |events|
  {
    WithinWindow(Run(f, events).s) && (events == [] || AlwaysWithin(f, events[..|events| - 1]))
  }

  lemma QuietAckFlowIff(s: Sender, input: seq<byte>, number: uint32, window: uint16)
    requires Sound(s) && Truthful(s, input) && s.segmentsOut == [] && s.flightBytes < U31 && SmallStream(s)
    ensures WithinWindow(s.AckReceived(number, window).0) <==> KeepsEdge(Fed(s, input), Ack(number, window))
  {
    var absolute := Unwrap(number, s.isn, s.ackno);
    if s.ackno < absolute <= s.nextSeqno {
      var t := AfterPop(s, absolute, window);
      AfterPopKeeps(s, input, absolute, window);
      if t.synFlag && !t.finFlag { FillRespectsWindowIff(t, input, true); }
    }
  }

  /** After an acknowledgement the sender is within the window exactly if it did not leave the edge behind,
      whatever is still queued. */
  lemma AckFlowIff(s: Sender, input: seq<byte>, number: uint32, window: uint16)
    requires Genuine(s, input) && s.flightBytes < U31 && SmallStream(s)
    ensures WithinWindow(s.AckReceived(number, window).0) <==> KeepsEdge(Fed(s, input), Ack(number, window))
  {
    QueueBehind(s);
    AckBehind(s.segmentsOut, TakeQueue(s), number, window);
    QuietAckFlowIff(TakeQueue(s), input, number, window);
  }

  lemma ClearedFlowIff(f: Fed, e: Event)
    requires Cleared(f) && Allowed(f, e) && SmallStream(f.s) && WithinWindow(f.s)
    ensures WithinWindow(Step(f, e).s) <==> KeepsEdge(f, e)
  {
    match e
    case Fill(sendSyn) =>
      FlightIsSum(f.s);
      if f.s.synFlag && !f.s.finFlag { FillRespectsWindowIff(f.s, f.input, sendSyn); }
    case Ack(number, window) => QuietAckFlowIff(f.s, f.input, number, window);
    case _ =>
  }

  lemma StepFlowIff(f: Fed, e: Event)
    requires Healthy(f) && Allowed(f, e) && SmallStream(f.s) && WithinWindow(f.s)
    ensures WithinWindow(Step(f, e).s) <==> KeepsEdge(f, e)
  {
    hide WriteStream, Sender.FillWindow, Sender.AckReceived, Sender.Tick;
    if !e.Collect? {
      StepAside(f, e);
      ClearedFlowIff(Aside(f), e);
    }
  }

  /** Flow control over whole runs: what is in flight, FIN included, never exceeds the peer's window (taken as
      one byte when it is zero), if and only if no acknowledgement leaves the window's edge behind. */
  lemma {:induction false} WithinWindowIff(capacity: nat, timeout: nat, isn: uint32, events: seq<Event>)
    requires var f := Fed(NewSender(capacity, timeout, isn), []);
             AllAllowed(f, events) && AllSmall(f, events)
    ensures var f := Fed(NewSender(capacity, timeout, isn), []);
            AlwaysWithin(f, events) <==> AllKeepEdge(f, events)
    decreases |events|
  {
    if events != [] {
      var f, earlier := Fed(NewSender(capacity, timeout, isn), []), events[..|events| - 1];
      RunKeeps(capacity, timeout, isn, earlier);
      WithinWindowIff(capacity, timeout, isn, earlier);
      if AlwaysWithin(f, earlier) { StepFlowIff(Run(f, earlier), events[|events| - 1]); }
    }
  }

  lemma ClearedOverruns(f: Fed, number: uint32, window: uint16)
    requires Cleared(f) && Allowed(f, Ack(number, window)) && f.s.synFlag && !f.s.finFlag
    requires Unwrap(number, f.s.isn, f.s.ackno) <= f.s.ackno && f.s.nextSeqno - f.s.ackno > Max(window, 1)
    ensures var t := Step(f, Ack(number, window));
            Cleared(t) && !WithinWindow(t.s) && Step(t, Fill(true)).s.stream.buffer == []
  {
    hide Truthful, Sender.FillWindow, Sender.SendEmptySegment;
    FlightIsSum(f.s);
    var t := Step(f, Ack(number, window));
    ClearedKeeps(f, Ack(number, window));
    FillRespectsWindowIff(t.s, t.input, true);
  }

  /** The failing family: an acknowledgement that advances nothing but announces a smaller window, as an
      old one arriving late does, puts the edge behind what was sent, and the next filling sends it all. */
  lemma StaleWindowOverruns(f: Fed, number: uint32, window: uint16)
    requires Healthy(f) && Allowed(f, Ack(number, window)) && f.s.synFlag && !f.s.finFlag
    requires Unwrap(number, f.s.isn, f.s.ackno) <= f.s.ackno && f.s.nextSeqno - f.s.ackno > Max(window, 1)
    ensures var t := Step(f, Ack(number, window));
            !WithinWindow(t.s) && Step(t, Fill(true)).s.stream.buffer == []
  {
    hide Step;
    var ack := Ack(number, window);
    StepAside(f, ack);
    StepAside(Step(f, ack), Fill(true));
    ClearedOverruns(Aside(f), number, window);
    assert Aside(Step(f, ack)) == Step(Aside(f), ack);
  }

  // ----- The retransmission timer -----

  /** Time spent before the n-th counted retransmission when every timeout runs its full course. */
  function Backoff(initial: nat, n: nat): nat {
    initial * (Pow2(n) - 1)
  }

  lemma BackoffStep(initial: nat, n: nat)
    ensures Backoff(initial, n + 1) == Backoff(initial, n) + initial * Pow2(n)
  {
    assert Pow2(n + 1) - 1 == (Pow2(n) - 1) + Pow2(n);
    Distribute(initial, Pow2(n) - 1, Pow2(n));
  }

  lemma Distribute(a: int, b: int, c: int)
    ensures a * (b + c) == a * b + a * c
  {
  }

  lemma {:induction false} BackoffGrows(initial: nat, m: nat, n: nat)
    requires m <= n
    ensures Backoff(initial, m) <= Backoff(initial, n)
    decreases n - m
  {
    if m < n {
      BackoffStep(initial, m);
      Scaling(initial, Pow2(m));
      BackoffGrows(initial, m + 1, n);
    }
  }

  /** No counted retransmission came early: `elapsed` covers the full timeouts and the current one's share. */
  ghost predicate NotEarly(s: Sender, elapsed: nat) {
    elapsed >= Backoff(s.initialTimeout, s.retransmitCount) + (s.retransmitTimeout - s.leftTimeout)
  }

  /** So many of the longest ticks. */
  function Ticks(count: nat, longest: nat): nat {
    count * longest
  }

  lemma TicksStep(count: nat, longest: nat)
    ensures Ticks(count + 1, longest) == Ticks(count, longest) + longest
  {
  }

  /** Each retransmission was at most one tick late. */
  ghost predicate NotLate(s: Sender, elapsed: nat, longest: nat) {
    elapsed <= Backoff(s.initialTimeout, s.retransmitCount) + (s.retransmitTimeout - s.leftTimeout)
               + Ticks(s.retransmitCount, longest)
  }

  /** The peer's window is open, and the tick is no longer than `longest`. */
  predicate Punctual(s: Sender, ms: nat, longest: nat) {
    ms <= longest && s.windowSize > 0
  }

  lemma TickNotEarly(s: Sender, ms: nat, elapsed: nat)
    requires Timed(s) && Accounted(s) && s.outstands != map[] && NotEarly(s, elapsed)
    ensures NotEarly(s.Tick(ms), elapsed + ms)
  {
    BackoffStep(s.initialTimeout, s.retransmitCount);
  }

  lemma TickNotLate(s: Sender, ms: nat, elapsed: nat, longest: nat)
    requires Timed(s) && Accounted(s) && s.outstands != map[] && NotLate(s, elapsed, longest)
    requires Punctual(s, ms, longest)
    ensures NotLate(s.Tick(ms), elapsed + ms, longest)
  {
    hide Backoff, Ticks, Tiles;
    BackoffStep(s.initialTimeout, s.retransmitCount);
    TicksStep(s.retransmitCount, longest);
  }

  /** The timing state of `s'` is that of `s`: nothing was acknowledged and no time has passed. */
  ghost predicate SameTimer(s: Sender, s': Sender) {
    && s'.initialTimeout == s.initialTimeout && s'.retransmitCount == s.retransmitCount
    && s'.retransmitTimeout == s.retransmitTimeout && s'.leftTimeout == s.leftTimeout
    && (s.outstands != map[] ==> s'.outstands != map[])
  }

  lemma SameTimerKeeps(s: Sender, s': Sender, elapsed: nat, longest: nat)
    requires SameTimer(s, s')
    ensures NotEarly(s, elapsed) ==> NotEarly(s', elapsed)
    ensures NotLate(s, elapsed, longest) ==> NotLate(s', elapsed, longest)
  {
  }

  /** The state in which the timer has just been armed. */
  ghost predicate FreshlyArmed(s: Sender) {
    s.outstands != map[] && s.retransmitCount == 0 && s.leftTimeout == s.initialTimeout == s.retransmitTimeout
  }

  lemma ArmedTiming(s: Sender, longest: nat)
    requires FreshlyArmed(s)
    ensures NotEarly(s, 0) && NotLate(s, 0, longest)
  {
  }

  /** Nine counted retransmissions take at least 511 initial timeouts. */
  lemma NotEarlyNinth(s: Sender, elapsed: nat)
    requires Timed(s) && NotEarly(s, elapsed) && s.retransmitCount > 8
    ensures elapsed >= 511 * s.initialTimeout
  {
    BackoffGrows(s.initialTimeout, 9, s.retransmitCount);
    assert Pow2(9) == 512;
  }

  /** With at most eight of them, less than 511 initial timeouts and eight ticks have passed. */
  lemma NotLateEighth(s: Sender, elapsed: nat, longest: nat)
    requires Timed(s) && NotLate(s, elapsed, longest) && s.retransmitCount <= 8 && s.initialTimeout > 0
    ensures elapsed < 511 * s.initialTimeout + 8 * longest
  {
    BackoffStep(s.initialTimeout, s.retransmitCount);
    BackoffGrows(s.initialTimeout, s.retransmitCount + 1, 9);
    assert Pow2(9) == 512;
    LinearBound(s.retransmitCount, 8, longest);
  }

  lemma LinearBound(a: nat, b: nat, c: nat)
    requires a <= b
    ensures a * c <= b * c
  {
  }

  function Elapsed(events: seq<Event>): nat
    decreases |events|
  {
    if events == [] then 0 else
    var e := events[|events| - 1];
    Elapsed(events[..|events| - 1]) + (if e.Tick? then e.ms else 0)
  }

  /** No acknowledgement in the run advances the acknowledgement number. */
  predicate NothingAcknowledged(f: Fed, events: seq<Event>)
    decreases |events|
  {
    events == [] ||
    (NothingAcknowledged(f, events[..|events| - 1]) && Run(f, events).s.ackno == f.s.ackno)
  }

  /** The peer's window is open at every tick, and no tick is longer than `longest`. */
  predicate AlwaysPunctual(f: Fed, events: seq<Event>, longest: nat)
    decreases |events|
  {
    events == [] ||
    var e := events[|events| - 1];
    && AlwaysPunctual(f, events[..|events| - 1], longest)
    && (e.Tick? ==> Punctual(Run(f, events[..|events| - 1]).s, e.ms, longest))
  }

  /** What one step means for the bounds. */
  ghost predicate KeepsTiming(s: Sender, e: Event, s': Sender, elapsed: nat, longest: nat) {
    var t := elapsed + (if e.Tick? then e.ms else 0);
    && (NotEarly(s, elapsed) ==> NotEarly(s', t))
    && (NotLate(s, elapsed, longest) && (e.Tick? ==> Punctual(s, e.ms, longest)) ==> NotLate(s', t, longest))
    && s'.outstands != map[] && s'.initialTimeout == s.initialTimeout
  }

  lemma ClearedTiming(f: Fed, e: Event, elapsed: nat, longest: nat)
    requires Cleared(f) && Allowed(f, e) && f.s.outstands != map[] && Step(f, e).s.ackno == f.s.ackno
    ensures KeepsTiming(f.s, e, Step(f, e).s, elapsed, longest)
  {
    match e
    case Tick(ms) =>
      if NotEarly(f.s, elapsed) { TickNotEarly(f.s, ms, elapsed); }
      if NotLate(f.s, elapsed, longest) && Punctual(f.s, ms, longest) { TickNotLate(f.s, ms, elapsed, longest); }
    case Fill(sendSyn) =>
      FillAppends(f.s, f.input, sendSyn);
      var k :| k in f.s.outstands;
      assert k in Step(f, e).s.outstands;
    case Ack(number, window) =>
      QuietAckRemovesExactly(f.s, f.input, number, window);
    case _ =>
  }

  lemma StepTiming(f: Fed, e: Event, elapsed: nat, longest: nat)
    requires Healthy(f) && Allowed(f, e) && f.s.outstands != map[] && Step(f, e).s.ackno == f.s.ackno
    ensures KeepsTiming(f.s, e, Step(f, e).s, elapsed, longest)
  {
    hide Sender.FillWindow, Sender.SendEmptySegment, Sender.AckReceived, EndStream, WriteStream;
    if !e.Collect? {
      StepAside(f, e);
      ClearedTiming(Aside(f), e, elapsed, longest);
    }
  }

  /** The timing bound over runs: the n-th counted retransmission is no sooner than (2^n - 1) initial
      timeouts after arming; with an open window, eight of them are not all that has happened once 511
      initial timeouts and eight of the longest ticks have passed. */
  lemma {:induction false} RetransmissionTiming(f: Fed, events: seq<Event>, longest: nat)
    requires Healthy(f) && FreshlyArmed(f.s) && AllAllowed(f, events) && NothingAcknowledged(f, events)
    ensures var s := Run(f, events).s;
            && Healthy(Run(f, events)) && s.outstands != map[] && s.initialTimeout == f.s.initialTimeout
            && NotEarly(s, Elapsed(events))
            && (AlwaysPunctual(f, events, longest) ==> NotLate(s, Elapsed(events), longest))
            && s.retransmitTimeout == s.initialTimeout * Pow2(s.retransmitCount)
    decreases |events|
  {
    if events == [] {
      ArmedTiming(f.s, longest);
    } else {
      var earlier, e := events[..|events| - 1], events[|events| - 1];
      RetransmissionTiming(f, earlier, longest);
      AcknoUnmoved(f, earlier);
      StepKeeps(Run(f, earlier), e);
      StepTiming(Run(f, earlier), e, Elapsed(earlier), longest);
    }
  }

  /** Giving up: more than eight counted retransmissions take at least 511 initial timeouts, and with an
      open window they have happened once 511 initial timeouts and eight of the longest ticks are over. */
  lemma GiveUpTiming(f: Fed, events: seq<Event>, longest: nat)
    requires Healthy(f) && FreshlyArmed(f.s) && AllAllowed(f, events) && NothingAcknowledged(f, events)
    requires f.s.initialTimeout > 0
    ensures var s := Run(f, events).s;
            && Elapsed(events) >= Backoff(f.s.initialTimeout, s.retransmitCount)
            && (s.retransmitCount > 8 ==> Elapsed(events) >= 511 * f.s.initialTimeout)
            && (AlwaysPunctual(f, events, longest) && Elapsed(events) >= 511 * f.s.initialTimeout + 8 * longest
                ==> s.retransmitCount > 8)
  {
    RetransmissionTiming(f, events, longest);
    var s := Run(f, events).s;
    if s.retransmitCount > 8 { NotEarlyNinth(s, Elapsed(events)); }
    if s.retransmitCount <= 8 && NotLate(s, Elapsed(events), longest) { NotLateEighth(s, Elapsed(events), longest); }
  }

  lemma AcknoUnmoved(f: Fed, events: seq<Event>)
    requires NothingAcknowledged(f, events)
    ensures Run(f, events).s.ackno == f.s.ackno
  {
  }
}
