/** A connection attempt that nobody answers: when it is given up, whatever the ticks. */
module UnansweredSyn {
  import opened TcpReceivers
  import opened TcpSenders
  import opened TcpConnections
  import opened ConnectionInvariants
  import opened ConnectionReplies
  import opened ConnectionGiveUp
  import opened Handshake
  import EndToEnd
  import TcpSenderRuns

  /** Nothing has come from the peer, and the connection is active until it gives up. */
  predicate Alone(c: Connection) {
    && Idle(c.sender) && c.sender.windowSize == 1 && c.sender.ackno == 0
    && c.sender.flightBytes == 1 && c.sender.stream.writCount == 0
    && !c.receiver.Ended() && c.segmentsOut == [] && c.sender.segmentsOut == []
    && (c.active <==> c.sender.retransmitCount <= MAX_RETX_ATTEMPTS)
  }

  lemma IdlePush(c: Connection)
    requires Idle(c.sender)
    ensures var d := c.PushSegmentsOut(false);
            d == c.(sender := TakeQueue(c.sender), segmentsOut := d.segmentsOut, needSendRst := d.needSendRst)
  {
    IdleFillSendsNothing(c.sender, c.InSynRecv());
    DrainedIs(c);
  }

  lemma TickedIsIdle(s: Sender, ms: nat)
    requires Idle(s) && s.segmentsOut == []
    ensures var t := s.Tick(ms);
            && Idle(t) && t.windowSize == s.windowSize && t.ackno == s.ackno && t.flightBytes == s.flightBytes
            && t.stream == s.stream && t.retransmitCount >= s.retransmitCount
  {
  }

  lemma GivenUp(c: Connection)
    requires Idle(c.sender) && c.sender.retransmitCount > MAX_RETX_ATTEMPTS
    ensures var d := GiveUpIfExhausted(c);
            && !d.active && d.receiver == Failed(c.receiver)
            && d.sender == FailStream(TakeQueue(c.sender))
  {
    var s := Fail(c).sender;
    IdlePush(Fail(c).(needSendRst := true, sender := if s.segmentsOut == [] then s.SendEmptySegment() else s));
  }

  lemma NotFinished(c: Connection)
    requires !c.receiver.Ended()
    ensures c.CleanShutdown() == c
  {
  }

  lemma TickAlone(e: Endpoint, ms: nat)
    requires Alone(e.conn)
    ensures var e' := Collected(Perform(e, Tick(ms)));
            Alone(e'.conn) && (!e.conn.active ==> e' == e)
  {
    var c := e.conn;
    if c.active {
      var p := PassTime(c, ms);
      TickedIsIdle(c.sender, ms);
      if p.sender.retransmitCount > MAX_RETX_ATTEMPTS { GivenUp(p); }
      var g := GiveUpIfExhausted(p);
      IdlePush(g);
      NotFinished(g.PushSegmentsOut(false));
    }
  }

  predicate OnlyTicks(calls: seq<Call>, longest: nat) {
    forall call :: call in calls ==> call.Tick? && call.ms <= longest
  }

  /** The endpoint that has just called `connect`. */
  function Connecting(s: Setup): Endpoint {
    Collected(Perform(Fresh(s), Connect))
  }

  lemma ConnectingIs(s: Setup)
    ensures Connecting(s) == Idling(SynSentConnection(s))
    ensures Alone(Connecting(s).conn)
    ensures Whole(Connecting(s).conn, []) && Quiet(Connecting(s).conn)
    ensures TcpSenderRuns.FreshlyArmed(Connecting(s).conn.sender)
  {
    SynGoesOut(s, Fresh(s).conn.receiver);
    NewSenderSound(s.sendCapacity, s.timeout, s.isn);
    PerformAdvances(Fresh(s), Connect);
    EndToEnd.CollectedWhole(Perform(Fresh(s), Connect));
    assert 0 in SynSender(s).outstands;
  }

  lemma {:induction false} TicksRun(e: Endpoint, calls: seq<Call>, longest: nat)
    requires Alone(e.conn) && OnlyTicks(calls, longest)
    ensures Alone(RunCalls(e, calls).conn) && PunctualCalls(e, calls, longest)
    ensures RunCalls(e, calls).conn.active ==> Unacknowledged(e, calls)
    decreases |calls|
  {
    if calls != [] {
      var earlier, call := calls[..|calls| - 1], calls[|calls| - 1];
      TicksRun(e, earlier, longest);
      assert call in calls;
      TickAlone(RunCalls(e, earlier), call.ms);
    }
  }

  /** The last tick of a run that was active before it. */
  lemma LastTick(e: Endpoint, calls: seq<Call>, longest: nat)
    requires Alone(e.conn) && OnlyTicks(calls, longest) && calls != []
    requires RunCalls(e, calls[..|calls| - 1]).conn.active
    ensures Unacknowledged(e, calls)
  {
    var earlier, call := calls[..|calls| - 1], calls[|calls| - 1];
    TicksRun(e, earlier, longest);
    assert call in calls;
    TickAlone(RunCalls(e, earlier), call.ms);
  }

  ghost predicate JustConnecting(e: Endpoint) {
    && Alone(e.conn) && Whole(e.conn, e.input) && Quiet(e.conn)
    && TcpSenderRuns.FreshlyArmed(e.conn.sender) && e.conn.sender.initialTimeout > 0
  }

  lemma {:induction false} ActiveLongEnough(e: Endpoint, calls: seq<Call>, longest: nat)
    requires JustConnecting(e) && OnlyTicks(calls, longest)
    ensures !RunCalls(e, calls).conn.active ==> Passed(calls) >= 511 * e.conn.sender.initialTimeout
    decreases |calls|
  {
    if calls != [] {
      var earlier := calls[..|calls| - 1];
      ActiveLongEnough(e, earlier, longest);
      if RunCalls(e, earlier).conn.active {
        TicksRun(e, calls, longest);
        LastTick(e, calls, longest);
        GivesUpInTime(e, calls, longest);
      }
    }
  }

  lemma InactiveInTime(e: Endpoint, calls: seq<Call>, longest: nat)
    requires JustConnecting(e) && OnlyTicks(calls, longest)
    requires Passed(calls) >= 511 * e.conn.sender.initialTimeout + 8 * longest
    ensures !RunCalls(e, calls).conn.active
  {
    TicksRun(e, calls, longest);
    if RunCalls(e, calls).conn.active { GivesUpInTime(e, calls, longest); }
  }

  /** A SYN that nobody answers: however the ticks fall, the connection stays active while fewer than 511
      initial timeouts have passed, and it is inactive once 511 initial timeouts and eight times the longest
      tick have passed. */
  lemma GivesUpOnSilence(s: Setup, calls: seq<Call>, longest: nat)
    requires OnlyTicks(calls, longest) && s.timeout > 0
    ensures var c := RunCalls(Connecting(s), calls).conn;
            && (Passed(calls) < 511 * s.timeout ==> c.active)
            && (Passed(calls) >= 511 * s.timeout + 8 * longest ==> !c.active)
  {
    var e := Connecting(s);
    assert JustConnecting(e) && e.conn.sender.initialTimeout == s.timeout by { ConnectingIs(s); }
    ActiveLongEnough(e, calls, longest);
    if Passed(calls) >= 511 * s.timeout + 8 * longest { InactiveInTime(e, calls, longest); }
  }
}
