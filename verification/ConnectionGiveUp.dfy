/** A connection whose peer has fallen silent gives up, neither too early nor too late. */
module ConnectionGiveUp {
  import opened Base
  import opened TcpSegments
  import opened TcpSenders
  import opened TcpSenderRuns
  import opened TcpConnections
  import opened ConnectionInvariants

  function Passed(calls: seq<Call>): nat
    decreases |calls|
  {
    if calls == [] then 0 else
    var call := calls[|calls| - 1];
    Passed(calls[..|calls| - 1]) + (if call.Tick? then call.ms else 0)
  }

  /** Before every call the connection is active, and no call advances the acknowledgement number. */
  predicate Unacknowledged(e: Endpoint, calls: seq<Call>)
    decreases |calls|
  {
    calls == [] ||
    var before := RunCalls(e, calls[..|calls| - 1]);
    && Unacknowledged(e, calls[..|calls| - 1])
    && before.conn.active && InRange(before.conn.sender)
    && RunCalls(e, calls).conn.sender.ackno == before.conn.sender.ackno
  }

  /** At every tick the peer's window is open, and no tick is longer than `longest`. */
  predicate PunctualCalls(e: Endpoint, calls: seq<Call>, longest: nat)
    decreases |calls|
  {
    calls == [] ||
    var call := calls[|calls| - 1];
    && PunctualCalls(e, calls[..|calls| - 1], longest)
    && (call.Tick? ==> Punctual(RunCalls(e, calls[..|calls| - 1]).conn.sender, call.ms, longest))
  }

  ghost predicate Waiting(e: Endpoint, passed: nat) {
    && Whole(e.conn, e.input) && Quiet(e.conn)
    && e.conn.sender.outstands != map[]
    && NotEarly(e.conn.sender, passed)
    && (e.conn.active ==> e.conn.sender.retransmitCount <= MAX_RETX_ATTEMPTS)
  }

  /** An acknowledgement that does not advance leaves the timer alone. */
  lemma StaleAckKeepsTimer(s: Sender, input: seq<byte>, seg: TcpSegment, s': Sender)
    requires Sound(s) && Truthful(s, input) && s.segmentsOut == [] && InRange(s)
    requires Unhurried(s, s') || Unhurried(Acked(s, seg), s')
    requires s'.ackno == s.ackno
    ensures SameTimer(s, s')
  {
    if seg.header.ack { QuietAckRemovesExactly(s, input, seg.header.ackno, seg.header.win); }
  }

  lemma CallTimer(e: Endpoint, call: Call)
    requires Whole(e.conn, e.input) && Quiet(e.conn) && InRange(e.conn.sender) && e.conn.active
    requires Perform(e, call).conn.sender.ackno == e.conn.sender.ackno
    ensures var s, s' := e.conn.sender, Perform(e, call).conn.sender;
            SameTimer(if call.Tick? then s.Tick(call.ms) else s, s')
  {
    PerformUnhurried(e, call);
    if call.Receive? { StaleAckKeepsTimer(e.conn.sender, e.input, call.seg, Perform(e, call).conn.sender); }
  }

  /** Only giving up ends the wait in a tick: afterwards the connection is active with at most eight
      counted retransmissions, or it has failed. */
  lemma ActiveAfterTick(c: Connection, input: seq<byte>, ms: nat)
    requires Whole(c, input) && c.active
    ensures c.Tick(ms).active ==> c.Tick(ms).sender.retransmitCount <= MAX_RETX_ATTEMPTS
    ensures c.sender.Tick(ms).retransmitCount > MAX_RETX_ATTEMPTS ==>
              !c.Tick(ms).active && c.Tick(ms).sender.stream.error
  {
    hide Sound, Whole, Connection.UncleanShutdown, Sender.FillWindow;
    TickUnhurried(c, input, ms);
    PassTimeKeeps(c, input, ms);
    var p := PassTime(c, ms);
    GiveUpKeeps(p, input);
    var g := GiveUpIfExhausted(p);
    PushAdvances(g, input, false);
    FillAppends(g.sender, input, g.InSynRecv());
    DrainedIs(g.(sender := g.sender.FillWindow(g.InSynRecv())));
    if p.sender.retransmitCount > MAX_RETX_ATTEMPTS {
      AbortFails(p, input);
    }
  }

  lemma AbortFails(c: Connection, input: seq<byte>)
    requires Whole(c, input)
    ensures !c.UncleanShutdown(true).active && c.UncleanShutdown(true).sender.stream.error
  {
    ResetWhole(c, input);
    var g := WithReset(c);
    FillAppends(g.sender, input, g.InSynRecv());
    DrainedIs(g.(sender := g.sender.FillWindow(g.InSynRecv())));
  }

  lemma TickKeepsWaiting(e: Endpoint, ms: nat, passed: nat)
    requires Waiting(e, passed) && e.conn.active
    requires SameTimer(e.conn.sender.Tick(ms), e.conn.Tick(ms).sender)
    ensures NotEarly(e.conn.Tick(ms).sender, passed + ms) && e.conn.Tick(ms).sender.outstands != map[]
    ensures e.conn.Tick(ms).active ==> e.conn.Tick(ms).sender.retransmitCount <= MAX_RETX_ATTEMPTS
  {
    TickNotEarly(e.conn.sender, ms, passed);
    SameTimerKeeps(e.conn.sender.Tick(ms), e.conn.Tick(ms).sender, passed + ms, 0);
    ActiveAfterTick(e.conn, e.input, ms);
  }

  lemma CallKeepsWaiting(e: Endpoint, call: Call, passed: nat)
    requires Waiting(e, passed) && InRange(e.conn.sender) && e.conn.active
    requires Perform(e, call).conn.sender.ackno == e.conn.sender.ackno
    ensures Waiting(Collected(Perform(e, call)), passed + (if call.Tick? then call.ms else 0))
  {
    PerformAdvances(e, call);
    CallTimer(e, call);
    if call.Tick? {
      TickKeepsWaiting(e, call.ms, passed);
    } else {
      SameTimerKeeps(e.conn.sender, Perform(e, call).conn.sender, passed, 0);
    }
  }

  lemma CallKeepsPunctual(e: Endpoint, call: Call, passed: nat, longest: nat)
    requires Waiting(e, passed) && InRange(e.conn.sender) && e.conn.active
    requires Perform(e, call).conn.sender.ackno == e.conn.sender.ackno
    requires NotLate(e.conn.sender, passed, longest)
    requires call.Tick? ==> Punctual(e.conn.sender, call.ms, longest)
    ensures NotLate(Perform(e, call).conn.sender, passed + (if call.Tick? then call.ms else 0), longest)
  {
    var s, s' := e.conn.sender, Perform(e, call).conn.sender;
    CallTimer(e, call);
    if call.Tick? {
      TickNotLate(s, call.ms, passed, longest);
      SameTimerKeeps(s.Tick(call.ms), s', passed + call.ms, longest);
    } else {
      SameTimerKeeps(s, s', passed, longest);
    }
  }

  lemma {:induction false} RunKeepsWaiting(e: Endpoint, calls: seq<Call>, longest: nat)
    requires Whole(e.conn, e.input) && Quiet(e.conn) && FreshlyArmed(e.conn.sender)
    requires Unacknowledged(e, calls)
    ensures Waiting(RunCalls(e, calls), Passed(calls))
    ensures PunctualCalls(e, calls, longest) ==> NotLate(RunCalls(e, calls).conn.sender, Passed(calls), longest)
    ensures RunCalls(e, calls).conn.sender.initialTimeout == e.conn.sender.initialTimeout
    decreases |calls|
  {
    if calls == [] {
      ArmedTiming(e.conn.sender, longest);
    } else {
      var earlier, call := calls[..|calls| - 1], calls[|calls| - 1];
      var before := RunCalls(e, earlier);
      RunKeepsWaiting(e, earlier, longest);
      CallKeepsWaiting(before, call, Passed(earlier));
      if PunctualCalls(e, calls, longest) { CallKeepsPunctual(before, call, Passed(earlier), longest); }
      PerformAdvances(before, call);
    }
  }

  /** From the moment the timer is armed, with no acknowledgement making progress: as long as the window
      is open and no tick is longer than `longest`, the connection is gone once 511 initial timeouts plus
      eight of those ticks have passed; and it never gives up before 511 initial timeouts have passed. */
  lemma GivesUpInTime(e: Endpoint, calls: seq<Call>, longest: nat)
    requires Whole(e.conn, e.input) && Quiet(e.conn) && FreshlyArmed(e.conn.sender)
    requires Unacknowledged(e, calls) && e.conn.sender.initialTimeout > 0
    ensures var c, initial := RunCalls(e, calls).conn, e.conn.sender.initialTimeout;
            var exhausted := c.sender.retransmitCount > MAX_RETX_ATTEMPTS;
            && (exhausted ==> Passed(calls) >= 511 * initial)
            && (PunctualCalls(e, calls, longest) && Passed(calls) >= 511 * initial + 8 * longest ==>
                  exhausted && !c.active)
  {
    RunKeepsWaiting(e, calls, longest);
    var s := RunCalls(e, calls).conn.sender;
    if s.retransmitCount > 8 {
      NotEarlyNinth(s, Passed(calls));
    } else if PunctualCalls(e, calls, longest) {
      NotLateEighth(s, Passed(calls), longest);
    }
    if PunctualCalls(e, calls, longest) && Passed(calls) >= 511 * e.conn.sender.initialTimeout + 8 * longest {
      assert s.retransmitCount > 8;
    }
  }

  /** Giving up is audible: the ninth counted retransmission goes out with a RST on it. */
  lemma GivingUpSendsReset(c: Connection, input: seq<byte>, ms: nat)
    requires Whole(c, input) && Quiet(c) && c.active
    requires c.sender.Tick(ms).retransmitCount > MAX_RETX_ATTEMPTS
    ensures var out := c.Tick(ms).segmentsOut;
            && out != [] && out[0].header.rst
            && !c.Tick(ms).active && c.Tick(ms).receiver.reassembler.output.error && c.Tick(ms).sender.stream.error
  {
    hide Sender.Tick, Sender.FillWindow, Emitted, Connection.UncleanShutdown;
    ActiveAfterTick(c, input, ms);
    PassTimeKeeps(c, input, ms);
    var p := PassTime(c, ms);
    GiveUpKeeps(p, input);
    ResetWhole(p, input);
    var w := WithReset(p);
    FillQueues(w.sender, input, w.InSynRecv());
    DrainedIs(w.(sender := w.sender.FillWindow(w.InSynRecv())));
    var g := GiveUpIfExhausted(p);
    assert g.segmentsOut != [] && g.segmentsOut[0].header.rst;
    DrainedIs(g.(sender := g.sender.FillWindow(g.InSynRecv())));
  }

  /** The tick has made the connection give up: it has failed, and says so with a RST. */
  predicate GaveUp(c: Connection, ms: nat) {
    var after := c.Tick(ms);
    && after.segmentsOut != [] && after.segmentsOut[0].header.rst
    && !after.active && after.receiver.reassembler.output.error && after.sender.stream.error
  }

  lemma ExhaustedGivesUp(e: Endpoint, ms: nat)
    requires Whole(e.conn, e.input) && Quiet(e.conn) && e.conn.active
    requires e.conn.Tick(ms).sender.retransmitCount > MAX_RETX_ATTEMPTS
    ensures GaveUp(e.conn, ms)
  {
    TickUnhurried(e.conn, e.input, ms);
    GivingUpSendsReset(e.conn, e.input, ms);
  }

  lemma OneMoreTick(e: Endpoint, calls: seq<Call>, ms: nat)
    requires Unacknowledged(e, calls + [Call.Tick(ms)])
    ensures var all, before := calls + [Call.Tick(ms)], RunCalls(e, calls).conn;
            && Unacknowledged(e, calls) && before.active && Passed(all) == Passed(calls) + ms
            && RunCalls(e, all).conn.sender == before.Tick(ms).sender
  {
    assert (calls + [Call.Tick(ms)])[..|calls|] == calls;
  }

  /** The abort of a connection without acknowledged progress, told at the tick that brings it: with a RST, no
      earlier than 511 initial timeouts; and with an open window and no tick longer than `longest`, at a tick
      that begins before 511 initial timeouts and eight of the longest ticks have passed, if not sooner. */
  lemma AbortsBetween(e: Endpoint, calls: seq<Call>, ms: nat, longest: nat)
    requires Whole(e.conn, e.input) && Quiet(e.conn) && FreshlyArmed(e.conn.sender) && e.conn.sender.initialTimeout > 0
    requires Unacknowledged(e, calls + [Call.Tick(ms)])
    ensures var before, bound := RunCalls(e, calls).conn, 511 * e.conn.sender.initialTimeout;
            var exhausted := before.Tick(ms).sender.retransmitCount > MAX_RETX_ATTEMPTS;
            && (exhausted ==> GaveUp(before, ms) && Passed(calls) + ms >= bound)
            && (PunctualCalls(e, calls, longest) ==> Passed(calls) < bound + 8 * longest)
            && (PunctualCalls(e, calls + [Call.Tick(ms)], longest) && Passed(calls) + ms >= bound + 8 * longest ==>
                  exhausted)
  {
    var all := calls + [Call.Tick(ms)];
    OneMoreTick(e, calls, ms);
    RunKeepsWaiting(e, calls, longest);
    GivesUpInTime(e, calls, longest);
    GivesUpInTime(e, all, longest);
    if RunCalls(e, calls).conn.Tick(ms).sender.retransmitCount > MAX_RETX_ATTEMPTS {
      ExhaustedGivesUp(RunCalls(e, calls), ms);
    }
  }
}
