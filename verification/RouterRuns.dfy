/** Runs of a router: frames arrive at its interfaces, time passes, and the inbound queues are routed. */
module RouterRuns {
  import opened Base
  import opened Ipv4
  import opened NetworkInterfaces
  import opened Routers
  import AddressResolution
  import AddressLifetimes

  /** The interfaces of a router, and what each of them has received and the router has not routed. */
  datatype Hub = Hub(nets: seq<Interface>, queues: seq<seq<Datagram>>)

  datatype Event = Arrive(at: nat, frame: Frame) | Tick(at: nat, ms: nat) | RouteAll

  predicate Wired(table: seq<Route>, hub: Hub) {
    Proper(table) && Attached(table, |hub.nets|) && |hub.queues| == |hub.nets|
  }

  function Step(table: seq<Route>, hub: Hub, e: Event): (hub': Hub)
    requires Wired(table, hub)
    ensures Wired(table, hub') && |hub'.nets| == |hub.nets|
  {
    match e
    case Arrive(i, frame) =>
      if i >= |hub.nets| then hub else
      var (n, received) := hub.nets[i].RecvFrame(frame);
      Hub(hub.nets[i := n], if received.Some? then hub.queues[i := hub.queues[i] + [received.value]] else hub.queues)
    case Tick(i, ms) =>
      if i >= |hub.nets| then hub else hub.(nets := hub.nets[i := hub.nets[i].Tick(ms)])
    case RouteAll =>
      Hub(ForwardAll(table, hub.nets, QueuesTo(hub.queues, |hub.queues|)), Emptied(hub.queues, |hub.queues|))
  }

  function Reached(table: seq<Route>, hub: Hub, events: seq<Event>): (hub': Hub)
    requires Wired(table, hub)
    ensures Wired(table, hub') && |hub'.nets| == |hub.nets|
    decreases |events|
  {
    if events == [] then hub
    else Step(table, Reached(table, hub, events[..|events| - 1]), events[|events| - 1])
  }

  /** What an event brings to one interface, read off the frame. */
  function Brings(mac: EthernetAddress, e: Event, i: nat): seq<Datagram> {
    if e.Arrive? && e.at == i then HandedUp(mac, e.frame) else []
  }

  /** The datagrams that arrive at one interface. */
  function Arrived(mac: EthernetAddress, events: seq<Event>, i: nat): seq<Datagram>
    decreases |events|
  {
    if events == [] then [] else
    Arrived(mac, events[..|events| - 1], i) + Brings(mac, events[|events| - 1], i)
  }

  /** The datagrams that have been routed from one interface's queue. */
  function Routed(table: seq<Route>, hub: Hub, events: seq<Event>, i: nat): seq<Datagram>
    requires Wired(table, hub) && i < |hub.nets|
    decreases |events|
  {
    if events == [] then [] else
    var earlier := events[..|events| - 1];
    Routed(table, hub, earlier, i) +
    (if events[|events| - 1].RouteAll? then Reached(table, hub, earlier).queues[i] else [])
  }

  // ----- The addresses of the interfaces stay -----

  lemma SendKeepsAddress(n: Interface, d: Datagram, hop: uint32)
    ensures n.SendDatagram(d, hop).mac == n.mac
  {
  }

  lemma ForwardKeepsAddress(table: seq<Route>, nets: seq<Interface>, d: Datagram, i: nat)
    requires Proper(table) && Attached(table, |nets|) && i < |nets|
    ensures Forward(table, nets, d)[i].mac == nets[i].mac
  {
    hide Interface.SendDatagram, Scan, Proper;
    if IsForwarded(table, d) {
      var route := Scan(table, d.header.dst).1;
      SendKeepsAddress(nets[i], Hopped(d), route.nextHop.GetOr(d.header.dst));
      ScanIsAttached(table, d.header.dst, |nets|);
    }
  }

  lemma {:induction false} ForwardAllKeepsAddress(table: seq<Route>, nets: seq<Interface>, ds: seq<Datagram>,
                                                  i: nat)
    requires Proper(table) && Attached(table, |nets|) && i < |nets|
    ensures ForwardAll(table, nets, ds)[i].mac == nets[i].mac
    decreases |ds|
  {
    if ds != [] {
      ForwardAllKeepsAddress(table, nets, ds[..|ds| - 1], i);
      ForwardKeepsAddress(table, ForwardAll(table, nets, ds[..|ds| - 1]), ds[|ds| - 1], i);
    }
  }

  lemma ReceiptKeepsAddress(n: Interface, frame: Frame)
    ensures n.RecvFrame(frame).0.mac == n.mac
  {
  }

  /** One event: what it adds to a queue is what has arrived, and only routing takes out. */
  lemma StepOfQueue(table: seq<Route>, hub: Hub, e: Event, i: nat)
    requires Wired(table, hub) && i < |hub.nets|
    ensures var hub' := Step(table, hub, e);
            && hub'.nets[i].mac == hub.nets[i].mac
            && hub'.queues[i] == if e.RouteAll? then [] else hub.queues[i] + Brings(hub.nets[i].mac, e, i)
  {
    hide Interface.RecvFrame, ForwardAll, HandedUp, QueuesTo, Proper;
    if e.Arrive? && e.at == i {
      ReceiptKeepsAddress(hub.nets[i], e.frame);
      HandsUp(hub.nets[i], e.frame);
    } else if e.RouteAll? {
      ForwardAllKeepsAddress(table, hub.nets, QueuesTo(hub.queues, |hub.queues|), i);
    }
  }

  lemma RoutingBrings(mac: EthernetAddress, i: nat)
    ensures Brings(mac, RouteAll, i) == []
  {
  }

  /** Over every run: what has been routed from an interface's queue, followed by what is in the queue, is what
      was in it followed by the datagrams of the frames addressed to that interface: each once, and in order. */
  lemma {:induction false} EachOnceInOrder(table: seq<Route>, hub: Hub, events: seq<Event>, i: nat)
    requires Wired(table, hub) && i < |hub.nets|
    ensures Reached(table, hub, events).nets[i].mac == hub.nets[i].mac
    ensures Routed(table, hub, events, i) + Reached(table, hub, events).queues[i] ==
              hub.queues[i] + Arrived(hub.nets[i].mac, events, i)
    decreases |events|
  {
    hide Step, Brings, Proper, Attached;
    if events != [] {
      var earlier, e := events[..|events| - 1], events[|events| - 1];
      var before := Reached(table, hub, earlier);
      EachOnceInOrder(table, hub, earlier, i);
      StepOfQueue(table, before, e, i);
      RoutingBrings(hub.nets[i].mac, i);
      var routed, more := Routed(table, hub, earlier, i), Brings(hub.nets[i].mac, e, i);
      var arrived := hub.queues[i] + Arrived(hub.nets[i].mac, earlier, i);
      assert arrived + more == hub.queues[i] + Arrived(hub.nets[i].mac, events, i);
      if e.RouteAll? {
        assert routed + before.queues[i] + [] == arrived + more;
      } else {
        assert routed + [] + (before.queues[i] + more) == routed + before.queues[i] + more;
      }
    }
  }

  // ----- A batch -----

  /** The datagrams that have arrived at the first `i` interfaces, interface by interface. */
  function ArrivedTo(nets: seq<Interface>, events: seq<Event>, i: nat): seq<Datagram>
    requires i <= |nets|
  {
    if i == 0 then [] else ArrivedTo(nets, events, i - 1) + Arrived(nets[i - 1].mac, events, i - 1)
  }

  lemma {:induction false} NothingRouted(table: seq<Route>, hub: Hub, events: seq<Event>, i: nat)
    requires Wired(table, hub) && i < |hub.nets| && RouteAll !in events
    ensures Routed(table, hub, events, i) == []
    decreases |events|
  {
    if events != [] {
      assert forall e :: e in events[..|events| - 1] ==> e in events;
      NothingRouted(table, hub, events[..|events| - 1], i);
    }
  }

  lemma {:induction false} QueuesAreArrivals(table: seq<Route>, hub: Hub, events: seq<Event>, i: nat)
    requires Wired(table, hub) && i <= |hub.nets| && RouteAll !in events
    requires forall j :: 0 <= j < |hub.queues| ==> hub.queues[j] == []
    ensures QueuesTo(Reached(table, hub, events).queues, i) == ArrivedTo(hub.nets, events, i)
    decreases i
  {
    hide Step, Reached, Arrived, Routed;
    if i > 0 {
      QueuesAreArrivals(table, hub, events, i - 1);
      EachOnceInOrder(table, hub, events, i - 1);
      NothingRouted(table, hub, events, i - 1);
      var queue, arrived := Reached(table, hub, events).queues[i - 1], Arrived(hub.nets[i - 1].mac, events, i - 1);
      assert [] + queue == queue && [] + arrived == arrived;
    }
  }

  // ----- What leaves, and by which interface -----

  /** The datagram is sent on along the route: the best one for its destination, with hops to go. */
  ghost predicate Takes(table: seq<Route>, d: Datagram, r: nat)
    requires Proper(table)
  {
    d.header.ttl > 1 && IsBest(table, d.header.dst, r)
  }

  lemma BestIsUnique(table: seq<Route>, dst: uint32, i: nat, j: nat)
    requires Proper(table) && IsBest(table, dst, i) && IsBest(table, dst, j)
    ensures i == j
  {
  }

  /** The datagram as it is sent on, and where to. */
  function SentAlong(route: Route, d: Datagram): AddressResolution.Event
    requires d.header.ttl > 1
  {
    AddressResolution.Send(d.(header := d.header.(ttl := d.header.ttl - 1)),
                           if route.nextHop.Some? then route.nextHop.value else d.header.dst)
  }

  /** What one interface is given to send, of a line of datagrams: those whose best route leads through it. */
  ghost function Share(table: seq<Route>, ds: seq<Datagram>, i: nat): seq<AddressResolution.Event>
    requires Proper(table)
    decreases |ds|
  {
    if ds == [] then [] else
    var d := ds[|ds| - 1];
    Share(table, ds[..|ds| - 1], i) +
    if exists r: nat :: Takes(table, d, r) && table[r].interfaceNum == i then
      var r: nat :| Takes(table, d, r) && table[r].interfaceNum == i;
      [SentAlong(table[r], d)]
    else []
  }

  lemma ForwardedAlong(table: seq<Route>, nets: seq<Interface>, d: Datagram, r: nat)
    requires Proper(table) && Attached(table, |nets|) && Takes(table, d, r)
    ensures var out := table[r].interfaceNum;
            Forward(table, nets, d) == nets[out := AddressResolution.After(nets[out], SentAlong(table[r], d))]
  {
    hide Forward, Interface.SendDatagram, IsBest;
    var dst := d.header.dst;
    ForwardMeaning(table, nets, d);
    BestShares(table, dst, r);
    forall i: nat | IsBest(table, dst, i) ensures i == r { BestIsUnique(table, dst, i, r); }
  }

  lemma BestShares(table: seq<Route>, dst: uint32, r: nat)
    requires Proper(table) && IsBest(table, dst, r)
    ensures r < |table| && SharesPrefix(table[r], dst)
  {
  }

  lemma NotForwarded(table: seq<Route>, nets: seq<Interface>, d: Datagram)
    requires Proper(table) && Attached(table, |nets|) && forall r: nat :: !Takes(table, d, r)
    ensures Forward(table, nets, d) == nets
  {
    hide Forward, Interface.SendDatagram, IsBest;
    ForwardMeaning(table, nets, d);
    forall r: nat ensures d.header.ttl > 1 ==> !IsBest(table, d.header.dst, r) { assert !Takes(table, d, r); }
  }

  /** Routing any line of datagrams: each is given to the interface of its best route, to be sent to the route's next
      hop or else its destination, with one hop less to go, in order; and nothing else is done. A datagram that no
      route fits, or that has no hop left to go, is given to none. */
  lemma {:induction false} EachSentOnce(table: seq<Route>, nets: seq<Interface>, ds: seq<Datagram>, i: nat)
    requires Proper(table) && Attached(table, |nets|) && i < |nets|
    ensures ForwardAll(table, nets, ds)[i] == AddressLifetimes.Reached(nets[i], Share(table, ds, i))
    decreases |ds|
  {
    hide Forward, Takes, Proper, Attached, AddressResolution.After;
    if ds != [] {
      var front, d := ds[..|ds| - 1], ds[|ds| - 1];
      EachSentOnce(table, nets, front, i);
      var earlier := ForwardAll(table, nets, front);
      if exists r: nat :: Takes(table, d, r) {
        var r: nat :| Takes(table, d, r);
        ForwardedAlong(table, earlier, d, r);
        ShareOf(table, ds, r, i);
      } else {
        NotForwarded(table, earlier, d);
        assert Share(table, ds, i) == Share(table, front, i);
      }
    }
  }

  lemma ShareOf(table: seq<Route>, ds: seq<Datagram>, r: nat, i: nat)
    requires Proper(table) && ds != [] && Takes(table, ds[|ds| - 1], r)
    ensures r < |table| && ds[|ds| - 1].header.ttl > 1
    ensures Share(table, ds, i) == Share(table, ds[..|ds| - 1], i) +
              if table[r].interfaceNum == i then [SentAlong(table[r], ds[|ds| - 1])] else []
  {
    var d := ds[|ds| - 1];
    forall q: nat | Takes(table, d, q) ensures q == r { BestIsUnique(table, d.header.dst, q, r); }
  }

  predicate AllKnown(n: Interface, sends: seq<AddressResolution.Event>) {
    forall e :: e in sends ==> e.Send? && FindMapping(n.cache, e.nextHop) < |n.cache|
  }

  /** One frame for each datagram, to the hardware address of its next hop. */
  function FramesFor(n: Interface, sends: seq<AddressResolution.Event>): seq<Frame>
    requires AllKnown(n, sends)
    decreases |sends|
  {
    if sends == [] then [] else
    var e := sends[|sends| - 1];
    FramesFor(n, sends[..|sends| - 1])
    + [Frame(n.cache[FindMapping(n.cache, e.nextHop)].mac, n.mac, 0x800, Internet(e.datagram))]
  }

  /** With the addresses of the next hops known, everything an interface is given goes out at once and in order. */
  lemma {:induction false} KnownHopsSend(n: Interface, sends: seq<AddressResolution.Event>)
    requires AllKnown(n, sends)
    ensures AddressLifetimes.Reached(n, sends) == n.(framesOut := n.framesOut + FramesFor(n, sends))
    decreases |sends|
  {
    hide Interface.SendDatagram, FindMapping;
    if sends != [] {
      var front, e := sends[..|sends| - 1], sends[|sends| - 1];
      assert e in sends && forall other :: other in front ==> other in sends;
      KnownHopsSend(n, front);
      AddressLifetimes.SendOutcome(AddressLifetimes.Reached(n, front), e.datagram, e.nextHop);
    }
  }

  /** From empty queues: whatever arrives, in whatever order, one round of routing gives each interface exactly its
      share of the datagrams that arrived, and leaves the queues empty. */
  lemma RoundForwardsArrivals(table: seq<Route>, hub: Hub, events: seq<Event>)
    requires Wired(table, hub) && RouteAll !in events
    requires forall j :: 0 <= j < |hub.queues| ==> hub.queues[j] == []
    ensures var before, after := Reached(table, hub, events), Step(table, Reached(table, hub, events), RouteAll);
            && (forall i :: 0 <= i < |hub.nets| ==>
                  after.nets[i] == AddressLifetimes.Reached(
                    before.nets[i], Share(table, ArrivedTo(hub.nets, events, |hub.nets|), i)))
            && (forall j :: 0 <= j < |after.queues| ==> after.queues[j] == [])
  {
    hide Share, ForwardAll, Arrived, AddressLifetimes.Reached;
    var before, arrived := Reached(table, hub, events), ArrivedTo(hub.nets, events, |hub.nets|);
    QueuesAreArrivals(table, hub, events, |hub.nets|);
    forall i | 0 <= i < |hub.nets|
      ensures ForwardAll(table, before.nets, arrived)[i] ==
                AddressLifetimes.Reached(before.nets[i], Share(table, arrived, i))
    {
      EachSentOnce(table, before.nets, arrived, i);
    }
  }
}
