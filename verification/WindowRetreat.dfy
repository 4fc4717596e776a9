/** A run in which the peer's window retreats and the sender overruns it. */
module WindowRetreat {
  import opened Base
  import opened WrappingIntegers
  import opened TcpSenders
  import opened TcpSenderRuns
  import opened Handshake
  import ConnectionInvariants

  type Setup = ConnectionInvariants.Setup

  /** The SYN is acknowledged with room for two bytes, three are written, two are sent; then the same
      number comes again with room for one. */
  function Retreat(isn: uint32): seq<Event> {
    [Fill(true), Collect, Ack(Wrap(1, isn), 2), Write([7, 8, 9]), Fill(true), Collect, Ack(Wrap(1, isn), 1), Fill(true)]
  }

  function Beginning(s: Setup): Fed {
    Fed(NewSender(s.sendCapacity, s.timeout, s.isn), [])
  }

  /** Three bytes are waiting, none is in flight. */
  function Written(s: Setup): Sender
    requires s.sendCapacity >= 3
  {
    var open := OpenSender(s, 2);
    open.(stream := open.stream.(buffer := [7, 8, 9], writCount := 3))
  }

  function TwoSent(s: Setup): Sender
    requires s.sendCapacity >= 3
  {
    SendChunk(Written(s))
  }

  lemma OpeningRun(s: Setup)
    requires s.sendCapacity >= 3
    ensures var f0, f1, f2, f3 := Beginning(s), Fed(SynSender(s).(segmentsOut := [Syn(s.isn)]), []),
                                  Fed(SynSender(s), []), Fed(OpenSender(s, 2), []);
            && Step(f0, Fill(true)) == f1 && Step(f1, Collect) == f2
            && Step(f2, Ack(Wrap(1, s.isn), 2)) == f3 && Step(f3, Write([7, 8, 9])) == Fed(Written(s), [7, 8, 9])
  {
    FirstSend(s);
    SynAcknowledged(s, 2);
    assert [7, 8, 9][..3] == [7, 8, 9];
  }

  lemma TwoBytesGo(s: Setup)
    requires s.sendCapacity >= 3
    ensures Written(s).FillWindow(true) == TwoSent(s)
    ensures var t := TwoSent(s);
            && t.nextSeqno == 3 && t.ackno == 1 && t.flightBytes == 2 && t.synFlag && !t.finFlag
            && t.isn == s.isn && t.stream.writCount == 3 && t.stream.readCount == 2
  {
    var w, t := Written(s), TwoSent(s);
    assert Room(w) == 2;
    assert Chunk(w) == [7, 8];
    assert Room(t) == 0;
    assert FillLoop(t) == t;
  }

  lemma RunMore(f: Fed, events: seq<Event>, i: nat)
    requires i < |events| && AllAllowed(f, events[..i]) && Allowed(Run(f, events[..i]), events[i])
    ensures AllAllowed(f, events[..i + 1]) && Run(f, events[..i + 1]) == Step(Run(f, events[..i]), events[i])
  {
    assert events[..i + 1][..i] == events[..i];
  }

  lemma SixSteps(s: Setup)
    requires s.sendCapacity >= 3
    ensures AllAllowed(Beginning(s), Retreat(s.isn)[..6])
    ensures Run(Beginning(s), Retreat(s.isn)[..6]) == Fed(TakeQueue(TwoSent(s)), [7, 8, 9])
  {
    hide AllAllowed, SendChunk, FinishesHere, Written, Allowed;
    var f, events := Beginning(s), Retreat(s.isn);
    OpeningRun(s);
    TwoBytesGo(s);
    assert events[..0] == [];
    RunMore(f, events, 0);
    RunMore(f, events, 1);
    RunMore(f, events, 2);
    RunMore(f, events, 3);
    RunMore(f, events, 4);
    RunMore(f, events, 5);
  }

  lemma SevenSteps(s: Setup)
    requires s.sendCapacity >= 3
    ensures AllAllowed(Beginning(s), Retreat(s.isn)[..7])
    ensures Run(Beginning(s), Retreat(s.isn)[..7]) == Fed(TakeQueue(TwoSent(s)).(windowSize := 1), [7, 8, 9])
  {
    SixSteps(s);
    TwoBytesGo(s);
    UnwrapOfWrap(1, s.isn, 1);
    RunMore(Beginning(s), Retreat(s.isn), 6);
  }

  lemma LastByteGoes(s: Setup, f: Fed)
    requires s.sendCapacity >= 3 && Healthy(f)
    requires f == Fed(TakeQueue(TwoSent(s)).(windowSize := 1), [7, 8, 9])
    ensures var t := Step(f, Fill(true)).s;
            t.windowSize == 1 && t.flightBytes == 3 && !WithinWindow(t)
  {
    TwoBytesGo(s);
    FillRespectsWindowIff(f.s, f.input, true);
    FillKeeps(f.s, f.input, true);
    FillAppends(f.s, f.input, true);
  }

  /** Every sender with room for three bytes can be brought to have three bytes in flight against a
      window of one, by a peer whose window only retreats. */
  lemma RetreatingWindowIsOverrun(s: Setup)
    requires s.sendCapacity >= 3
    ensures AllAllowed(Beginning(s), Retreat(s.isn))
    ensures var t := Run(Beginning(s), Retreat(s.isn)).s;
            t.windowSize == 1 && t.flightBytes == 3 && !WithinWindow(t)
  {
    hide Step;
    var f, events := Beginning(s), Retreat(s.isn);
    SevenSteps(s);
    RunKeeps(s.sendCapacity, s.timeout, s.isn, events[..7]);
    LastByteGoes(s, Run(f, events[..7]));
    RunMore(f, events, 7);
    assert events[..8] == events;
  }
}
