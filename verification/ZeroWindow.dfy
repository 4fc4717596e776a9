/** A peer that keeps its window closed is probed for ever: the interval does not grow, and the connection is not
    given up. */
module ZeroWindow {
  import opened TcpSenders
  import opened ConnectionInvariants
  import opened ConnectionClose
  import opened ConnectionGiveUp
  import opened ConnectionResets

  /** The connection is active, without an error, and waits for an acknowledgement. */
  ghost predicate Probing(e: Endpoint) {
    && (exists quiet: nat :: Kept(e, quiet))
    && e.conn.active && !e.conn.sender.stream.error && e.conn.sender.outstands != map[]
    && e.conn.sender.retransmitCount <= 8
  }

  /** The call brings no progress: no new acknowledgement, no RST that counts, and a tick finds the window closed. */
  predicate Stalls(e: Endpoint, call: Call) {
    && InRange(e.conn.sender) && Perform(e, call).conn.sender.ackno == e.conn.sender.ackno
    && (call.Receive? ==> !Resets(e.conn, call.seg))
    && (call.Tick? ==> e.conn.sender.windowSize == 0)
  }

  predicate AllStall(e: Endpoint, calls: seq<Call>)
    decreases |calls|
  {
    calls == [] ||
    var earlier := calls[..|calls| - 1];
    AllStall(e, earlier) && Stalls(RunCalls(e, earlier), calls[|calls| - 1])
  }

  ghost predicate SameInterval(e: Endpoint, e': Endpoint) {
    && e'.conn.sender.retransmitCount == e.conn.sender.retransmitCount
    && e'.conn.sender.retransmitTimeout == e.conn.sender.retransmitTimeout
  }

  lemma StalledCall(e: Endpoint, call: Call)
    requires Probing(e) && Stalls(e, call)
    ensures Probing(Collected(Perform(e, call))) && SameInterval(e, Collected(Perform(e, call)))
  {
    hide Perform, Sender.Tick, Resets, Emitted, Truthful;
    var quiet: nat :| Kept(e, quiet);
    var e' := Collected(Perform(e, call));
    CallKeeps(e, call, quiet);
    assert Kept(e', Silence(e.conn, call, quiet));
    if call.Tick? { TickOutcome(e.conn.sender, call.ms); }
    CallTimer(e, call);
    CallMarks(e, call);
    FlightIsSum(e'.conn.sender);
  }

  /** Over every run of calls without progress, with the window closed at every tick: the connection stays active,
      however long it takes, and the probes keep their interval. */
  lemma {:induction false} ProbesForEver(e: Endpoint, calls: seq<Call>)
    requires Probing(e) && AllStall(e, calls)
    ensures Probing(RunCalls(e, calls)) && SameInterval(e, RunCalls(e, calls))
    decreases |calls|
  {
    if calls != [] {
      var earlier := calls[..|calls| - 1];
      ProbesForEver(e, earlier);
      StalledCall(RunCalls(e, earlier), calls[|calls| - 1]);
    }
  }
}
