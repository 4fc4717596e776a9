/** Clean close and delivery together: what an error-free close says about both ends. */
module CloseDelivers {
  import opened StreamReassemblers
  import opened TcpSenders
  import opened ConnectionInvariants
  import opened ConnectionClose
  import opened EndToEnd

  /** The closing rules hold at an endpoint, for some time of silence. */
  ghost predicate OrderlyEnd(e: Endpoint) {
    exists quiet: nat :: Orderly(e.conn, quiet)
  }

  lemma StepOrderly(e: Endpoint, step: Step)
    requires Working(e) && OrderlyEnd(e)
    ensures OrderlyEnd(Collected(After(e, step)))
  {
    var quiet: nat :| Orderly(e.conn, quiet);
    CallKeeps(e, CallOf(step), quiet);
    assert Orderly(Collected(After(e, step)).conn, Silence(e.conn, CallOf(step), quiet));
  }

  lemma FreshOrderly(s: Setup)
    ensures OrderlyEnd(Fresh(s))
  {
    assert Orderly(Fresh(s).conn, 0);
  }

  lemma {:induction false} RunIsOrderly(setupA: Setup, setupB: Setup, turns: seq<Turn>)
    requires GoodRun(setupA, setupB, turns)
    ensures var n := RunFrom(Start(setupA, setupB), turns);
            OrderlyEnd(n.a) && OrderlyEnd(n.b)
    decreases |turns|
  {
    if turns == [] {
      FreshOrderly(setupA);
      FreshOrderly(setupB);
    } else {
      var earlier, t := turns[..|turns| - 1], turns[|turns| - 1];
      var n := RunFrom(Start(setupA, setupB), earlier);
      RunIsOrderly(setupA, setupB, earlier);
      RunIsSafe(setupA, setupB, earlier);
      if t.ofA { StepOrderly(n.a, t.step); } else { StepOrderly(n.b, t.step); }
    }
  }

  /** Everything x took from its stream, up to the end, is at y, and y knows that it is all. */
  ghost predicate Complete(x: Endpoint, y: Endpoint) {
    && x.conn.sender.finFlag && y.conn.receiver.Ended()
    && x.conn.sender.stream.readCount <= |x.input|
    && Assembled(y.conn.receiver.reassembler, y.read) == x.input[..x.conn.sender.stream.readCount]
  }

  lemma ClosedIsComplete(x: Endpoint, y: Endpoint)
    requires OrderlyEnd(x) && Feeds(x.conn.sender, x.input) && Feeds(y.conn.sender, y.input)
    requires PrefixSafe(x, y) && PrefixSafe(y, x) && DeliveredIfAcked(x, y)
    requires !x.conn.active && !x.conn.sender.stream.error
    ensures Complete(x, y) && Complete(y, x)
  {
  }

  /** In a run without forgery, an endpoint that is inactive without an error has its whole stream at the peer
      and the peer's whole stream here. */
  lemma CleanCloseDelivers(setupA: Setup, setupB: Setup, turns: seq<Turn>)
    requires GoodRun(setupA, setupB, turns) && NothingForged(turns)
    ensures var n := RunFrom(Start(setupA, setupB), turns);
            && (!n.a.conn.active && !n.a.conn.sender.stream.error ==> Complete(n.a, n.b) && Complete(n.b, n.a))
            && (!n.b.conn.active && !n.b.conn.sender.stream.error ==> Complete(n.a, n.b) && Complete(n.b, n.a))
  {
    var n := RunFrom(Start(setupA, setupB), turns);
    RunIsOrderly(setupA, setupB, turns);
    PrefixSafety(setupA, setupB, turns);
    AllAckedIsDelivered(setupA, setupB, turns);
    RunIsSafe(setupA, setupB, turns);
    if !n.a.conn.active && !n.a.conn.sender.stream.error { ClosedIsComplete(n.a, n.b); }
    if !n.b.conn.active && !n.b.conn.sender.stream.error { ClosedIsComplete(n.b, n.a); }
  }
}
