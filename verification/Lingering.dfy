/** How long an endpoint whose two streams are over stays active: at once or ten timeouts, whatever the ticks. */
module Lingering {
  import opened TcpSenders
  import opened TcpConnections
  import opened ConnectionInvariants
  import opened ConnectionReplies
  import opened ConnectionGiveUp

  /** The peer's stream has ended, the FIN has been sent behind all that was written, and nothing is in flight. */
  ghost predicate StreamsOver(c: Connection) {
    && Sound(c.sender) && Quiet(c) && c.receiver.reassembler.output.ended
    && c.sender.finFlag && c.sender.stream.ended && c.sender.stream.buffer == [] && c.sender.flightBytes == 0
  }

  /** The closing rule in the fields, from every connection: lingering is called off while the inbound stream has ended
      and the outbound one has not; the connection is over once both streams are and the wait, if any, is too. */
  lemma CloseOutcome(c: Connection)
    ensures var inEnded, s := c.receiver.reassembler.output.ended, c.sender.stream;
            var outEnded := s.ended && s.buffer == [];
            var linger := c.linger && !(inEnded && !outEnded);
            var over := inEnded && outEnded && c.sender.flightBytes == 0 &&
                        (!c.linger || c.timeSince >= 10 * c.rtTimeout);
            c.CleanShutdown() == c.(linger := linger, active := c.active && !over,
                                    timeSince := if over then 0 else c.timeSince)
  {
  }

  /** One tick: the connection is over unless it lingers and the time is not up; otherwise only time has passed. */
  lemma OverAfterTick(c: Connection, ms: nat)
    requires StreamsOver(c) && c.active
    ensures var d := c.Tick(ms);
            && StreamsOver(d) && d.linger == c.linger && d.rtTimeout == c.rtTimeout
            && (d.active <==> c.linger && c.timeSince + ms < 10 * c.rtTimeout)
            && (d.active ==> d.timeSince == c.timeSince + ms)
            && d.sender.stream == c.sender.stream && d.receiver == c.receiver
  {
    FlightIsSum(c.sender);
    TickSound(c.sender, ms);
    var p := PassTime(c, ms);
    IdleFillSendsNothing(p.sender, p.InSynRecv());
    assert GiveUpIfExhausted(p) == p && p.PushSegmentsOut(false) == p;
  }

  /** Nothing but time passes, and the application reads. */
  predicate TimePasses(calls: seq<Call>) {
    forall call :: call in calls ==> call.Tick? || call.Read?
  }

  predicate Ticked(calls: seq<Call>) {
    exists call :: call in calls && call.Tick?
  }

  lemma TickedMore(calls: seq<Call>)
    requires calls != []
    ensures Ticked(calls) <==> Ticked(calls[..|calls| - 1]) || calls[|calls| - 1].Tick?
  {
    var earlier, call := calls[..|calls| - 1], calls[|calls| - 1];
    assert calls == earlier + [call];
    if call.Tick? { assert call in calls; }
    if Ticked(earlier) {
      var other :| other in earlier && other.Tick?;
      assert other in calls;
    }
  }

  lemma ReadKeepsOver(c: Connection, len: nat)
    requires StreamsOver(c)
    ensures var d := ReadInbound(c, len);
            && StreamsOver(d) && d.linger == c.linger && d.rtTimeout == c.rtTimeout
            && d.active == c.active && d.timeSince == c.timeSince
  {
  }

  lemma InactiveIgnoresTicks(c: Connection, ms: nat)
    requires !c.active
    ensures c.Tick(ms) == c
  {
  }

  /** From every such state, after any ticks without a segment received: the connection is inactive if and only
      if it did not have to linger, or ten timeouts have passed since the last segment. */
  lemma {:induction false} LingersTenTimeouts(e: Endpoint, calls: seq<Call>)
    requires StreamsOver(e.conn) && e.conn.active && TimePasses(calls)
    ensures var c, d := e.conn, RunCalls(e, calls).conn;
            && StreamsOver(d) && d.linger == c.linger && d.rtTimeout == c.rtTimeout
            && (!d.active <==> Ticked(calls) && (!c.linger || c.timeSince + Passed(calls) >= 10 * c.rtTimeout))
            && (d.active ==> d.timeSince == c.timeSince + Passed(calls))
            && d.sender.stream == c.sender.stream
    decreases |calls|
  {
    hide Connection.Tick, Connection.SegmentReceived, Connection.Write, Sound, Connection.PushSegmentsOut;
    if calls != [] {
      var earlier, call := calls[..|calls| - 1], calls[|calls| - 1];
      var before := RunCalls(e, earlier);
      assert call in calls && forall other :: other in earlier ==> other in calls;
      LingersTenTimeouts(e, earlier);
      TickedMore(calls);
      if call.Read? {
        ReadKeepsOver(before.conn, call.len);
      } else if before.conn.active {
        OverAfterTick(before.conn, call.ms);
      } else {
        InactiveIgnoresTicks(before.conn, call.ms);
      }
    }
  }
}
