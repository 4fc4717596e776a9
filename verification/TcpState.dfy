/** The summary of a sender that a connection publishes, computed from its counters alone. */
module TcpStates {
  import opened Base
  import opened WrappingIntegers
  import opened TcpSenders
  import opened TcpSenderRuns

  datatype SenderSummary = Failed | Closed | SynSent | SynAcked | FinSent | FinAcked

  function Summary(s: Sender): SenderSummary {
    if s.stream.error then Failed
    else if s.nextSeqno == 0 then Closed
    else if s.nextSeqno == s.flightBytes then SynSent
    else if !s.stream.Eof() then SynAcked
    else if s.nextSeqno < s.stream.writCount + 2 then SynAcked
    else if s.flightBytes != 0 then FinSent
    else FinAcked
  }

  function Rank(summary: SenderSummary): nat {
    match summary
    case Failed => 5
    case Closed => 0
    case SynSent => 1
    case SynAcked => 2
    case FinSent => 3
    case FinAcked => 4
  }

  /** The counters tell the truth about the hidden flags and the outstanding segments: failure is published
      exactly when the stream has failed; otherwise the FIN states exactly when the FIN has been sent, the SYN is
      acknowledged, and no later write is waiting. */
  lemma SummaryAgrees(s: Sender, input: seq<byte>)
    requires Genuine(s, input)
    ensures Summary(s) == Failed <==> s.stream.error
    ensures Summary(s) == Closed <==> !s.stream.error && !s.synFlag
    ensures Summary(s) == SynSent <==> !s.stream.error && 0 in s.outstands
    ensures Summary(s) in {FinSent, FinAcked} <==>
              !s.stream.error && s.finFlag && 0 !in s.outstands && s.stream.buffer == []
    ensures Summary(s) == FinAcked <==>
              !s.stream.error && s.finFlag && s.outstands == map[] && s.stream.buffer == []
  {
    FlightIsSum(s);
    TilesBounds(s.outstands, OldestSeqno(s), s.nextSeqno);
    if s.outstands.Keys != {} { TilesFirst(s.outstands, OldestSeqno(s), s.nextSeqno); }
    if 0 in s.outstands {
      assert OldestSeqno(s) == 0;
    }
  }

  /** A FIN, once sent, is the end: nothing waits behind it. */
  predicate NothingBehindFin(s: Sender) {
    s.finFlag ==> s.stream.buffer == []
  }

  /** Everything that is not a write after the end of the stream, or a failure. */
  predicate Proper(f: Fed, e: Event) {
    e.Write? ==> !f.s.stream.ended
  }

  lemma AckOldest(s: Sender, input: seq<byte>, number: uint32, window: uint16)
    requires Sound(s) && Truthful(s, input) && s.segmentsOut == [] && s.flightBytes < U31 && SmallStream(s)
    ensures OldestSeqno(s.AckReceived(number, window).0) >= OldestSeqno(s)
  {
    var absolute := Unwrap(number, s.isn, s.ackno);
    if s.ackno < absolute <= s.nextSeqno {
      AfterPopKeeps(s, input, absolute, window);
      FillKeeps(AfterPop(s, absolute, window), input, true);
    }
  }

  /** Filling the window announces the end only when the stream is drained. */
  lemma {:induction false} FillLoopFinIsLast(s: Sender)
    requires !s.finFlag
    ensures NothingBehindFin(FillLoop(s))
    decreases |s.stream.buffer|
  {
    if Room(s) != 0 && !FinishesHere(s) && Chunk(s) != [] {
      FillLoopFinIsLast(SendChunk(s));
    }
  }

  lemma FillFinIsLast(s: Sender, sendSyn: bool)
    requires NothingBehindFin(s) && (s.finFlag ==> s.synFlag)
    ensures NothingBehindFin(s.FillWindow(sendSyn))
  {
    if s.synFlag && !s.finFlag { FillLoopFinIsLast(s); }
  }

  lemma ClearedFinIsLast(f: Fed, e: Event)
    requires Cleared(f) && Allowed(f, e) && Proper(f, e) && NothingBehindFin(f.s)
    ensures NothingBehindFin(Step(f, e).s)
  {
    match e
    case Fill(sendSyn) => FillFinIsLast(f.s, sendSyn);
    case Ack(number, window) =>
      var absolute := Unwrap(number, f.s.isn, f.s.ackno);
      if f.s.ackno < absolute <= f.s.nextSeqno {
        AfterPopKeeps(f.s, f.input, absolute, window);
        FillFinIsLast(AfterPop(f.s, absolute, window), true);
      }
    case _ =>
  }

  lemma StepFinIsLast(f: Fed, e: Event)
    requires Healthy(f) && Allowed(f, e) && Proper(f, e) && NothingBehindFin(f.s)
    ensures NothingBehindFin(Step(f, e).s)
  {
    hide Sender.SendEmptySegment, Sender.Tick, Sender.FillWindow;
    if !e.Collect? {
      StepAside(f, e);
      ClearedFinIsLast(Aside(f), e);
    }
  }

  lemma StepOldest(f: Fed, e: Event)
    requires Healthy(f) && Allowed(f, e)
    ensures OldestSeqno(Step(f, e).s) >= OldestSeqno(f.s)
    ensures Step(f, e).s.stream.error == f.s.stream.error
  {
    hide WriteStream, Sender.FillWindow, Sender.Tick, Sender.AckReceived, Sender.SendEmptySegment;
    if !e.Collect? {
      StepAside(f, e);
      ClearedOldest(Aside(f), e);
    }
  }

  lemma ClearedOldest(f: Fed, e: Event)
    requires Cleared(f) && Allowed(f, e)
    ensures OldestSeqno(Step(f, e).s) >= OldestSeqno(f.s)
    ensures Step(f, e).s.stream.error == f.s.stream.error
  {
    hide Truthful, Unwrap;
    match e
    case Fill(sendSyn) => FillKeeps(f.s, f.input, sendSyn); FillAppends(f.s, f.input, sendSyn);
    case Tick(ms) => TickKeeps(f.s, f.input, ms);
    case Ack(number, window) =>
      AckOldest(f.s, f.input, number, window);
      var absolute := Unwrap(number, f.s.isn, f.s.ackno);
      if f.s.ackno < absolute <= f.s.nextSeqno {
        AfterPopKeeps(f.s, f.input, absolute, window);
        FillAppends(AfterPop(f.s, absolute, window), f.input, true);
      }
    case _ =>
  }

  /** What one step means for the numbers behind the summary. */
  lemma SummaryMonotone(s: Sender, input: seq<byte>, s': Sender, input': seq<byte>)
    requires Genuine(s, input) && Genuine(s', input')
    requires Evolves(s, input, s', input') && OldestSeqno(s') >= OldestSeqno(s)
    requires NothingBehindFin(s) && NothingBehindFin(s') && !s.stream.error && !s'.stream.error
    ensures Rank(Summary(s)) <= Rank(Summary(s'))
  {
    hide Emits, Truthful;
    SummaryAgrees(s, input);
    SummaryAgrees(s', input');
    FlightIsSum(s);
    FlightIsSum(s');
    assert s.finFlag ==> s'.nextSeqno == s.nextSeqno;
    TilesBounds(s.outstands, OldestSeqno(s), s.nextSeqno);
    TilesBounds(s'.outstands, OldestSeqno(s'), s'.nextSeqno);
    if s.outstands.Keys != {} { TilesFirst(s.outstands, OldestSeqno(s), s.nextSeqno); }
    if s'.outstands.Keys != {} { TilesFirst(s'.outstands, OldestSeqno(s'), s'.nextSeqno); }
  }

  predicate AllProper(f: Fed, events: seq<Event>)
    decreases |events|
  {
    events == [] ||
    (AllProper(f, events[..|events| - 1]) && Proper(Run(f, events[..|events| - 1]), events[|events| - 1]))
  }

  lemma {:induction false} RunPublishes(capacity: nat, timeout: nat, isn: uint32, events: seq<Event>)
    requires var f := Fed(NewSender(capacity, timeout, isn), []);
             AllAllowed(f, events) && AllProper(f, events)
    ensures var s := Run(Fed(NewSender(capacity, timeout, isn), []), events).s;
            NothingBehindFin(s) && !s.stream.error
    decreases |events|
  {
    if events != [] {
      var f, earlier := Fed(NewSender(capacity, timeout, isn), []), events[..|events| - 1];
      RunKeeps(capacity, timeout, isn, earlier);
      RunPublishes(capacity, timeout, isn, earlier);
      StepFinIsLast(Run(f, earlier), events[|events| - 1]);
      StepOldest(Run(f, earlier), events[|events| - 1]);
    }
  }

  /** Without writes after the end, the published state only moves on: closed, SYN sent, SYN acknowledged,
      FIN sent, FIN acknowledged; and the FIN states are published exactly when the FIN was sent. */
  lemma PublishedStateAdvances(capacity: nat, timeout: nat, isn: uint32, events: seq<Event>)
    requires events != []
    requires var f := Fed(NewSender(capacity, timeout, isn), []);
             AllAllowed(f, events) && AllProper(f, events)
    ensures var f := Fed(NewSender(capacity, timeout, isn), []);
            var s, before := Run(f, events).s, Run(f, events[..|events| - 1]).s;
            && Rank(Summary(before)) <= Rank(Summary(s))
            && (Summary(s) in {FinSent, FinAcked} <==> s.finFlag && 0 !in s.outstands)
            && (Summary(s) == FinAcked <==> s.finFlag && s.outstands == map[])
  {
    var f, earlier, e := Fed(NewSender(capacity, timeout, isn), []), events[..|events| - 1], events[|events| - 1];
    RunKeeps(capacity, timeout, isn, earlier);
    RunPublishes(capacity, timeout, isn, earlier);
    RunKeeps(capacity, timeout, isn, events);
    RunPublishes(capacity, timeout, isn, events);
    StepKeeps(Run(f, earlier), e);
    StepOldest(Run(f, earlier), e);
    SummaryMonotone(Run(f, earlier).s, Run(f, earlier).input, Run(f, events).s, Run(f, events).input);
    SummaryAgrees(Run(f, events).s, Run(f, events).input);
  }
}
