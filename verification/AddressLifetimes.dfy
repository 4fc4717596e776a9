/** What an interface sends and learns on a frame, and for how long: an answer within 5000 ms releases the datagram
    that waits, and an address that has been learnt serves for 30000 ms. */
module AddressLifetimes {
  import opened Base
  import opened Ipv4
  import opened NetworkInterfaces
  import opened AddressResolution

  const EVERYONE: EthernetAddress := [0xFF, 0xFF, 0xFF, 0xFF, 0xFF, 0xFF]
  const NOBODY: EthernetAddress := [0, 0, 0, 0, 0, 0]

  /** The ARP messages an interface takes notice of: replies to itself, and requests to everyone. */
  predicate Heeds(mac: EthernetAddress, frame: Frame) {
    && frame.payload.Arp?
    && (if frame.dst == mac then frame.etype == 0x806 && frame.payload.message.opcode == Reply
        else frame.dst == EVERYONE && frame.etype != 0x800 && frame.payload.message.opcode == Request)
  }

  predicate HeedsFrom(mac: EthernetAddress, frame: Frame, ip: uint32) {
    Heeds(mac, frame) && frame.payload.message.senderIp == ip
  }

  /** The datagram that waits for the sender of the message. */
  function Release(n: Interface, m: ArpMessage): seq<Frame> {
    if m.senderIp in n.waiting then [Frame(m.senderMac, n.mac, 0x800, Internet(n.waiting[m.senderIp]))] else []
  }

  /** The reply to a request for the interface's own address: to the sender, naming both ends. */
  function Answer(n: Interface, m: ArpMessage): seq<Frame> {
    if m.opcode == Request && m.targetIp == n.ip then
      [Frame(m.senderMac, n.mac, 0x806, Arp(ArpMessage(Reply, n.mac, n.ip, m.senderMac, m.senderIp)))]
    else []
  }

  lemma NotFound(n: Interface, ip: uint32)
    ensures FindMapping(n.cache, ip) == |n.cache| <==> !Cached(n, ip)
  {
    if FindMapping(n.cache, ip) < |n.cache| { assert Cached(n, ip); }
  }

  /** Everything a frame does to an interface, field by field. */
  lemma ReceiptOutcome(n: Interface, frame: Frame)
    requires Consistent(n)
    ensures var n' := n.RecvFrame(frame).0;
            if Heeds(n.mac, frame) then
              var m := frame.payload.message;
              var news := m.senderIp in n.waiting || (m.opcode == Request && !Cached(n, m.senderIp));
              && n'.framesOut == n.framesOut + Release(n, m) + Answer(n, m)
              && n'.cache == n.cache + (if news then [Mapping(m.senderIp, m.senderMac, 30000)] else [])
              && n'.waiting == (n.waiting - {m.senderIp}) && n'.life == n.life
              && n'.mac == n.mac && n'.ip == n.ip
            else n' == n
  {
    hide NewFrames, FindMapping, Consistent, Interface.SendDatagram;
    if Heeds(n.mac, frame) {
      var m := frame.payload.message;
      NotFound(n, m.senderIp);
      if m.senderIp in n.waiting {
        ReleasedFrames(n, m);
      } else {
        assert n.waiting - {m.senderIp} == n.waiting;
      }
    }
  }

  lemma ReleasedFrames(n: Interface, m: ArpMessage)
    requires Consistent(n) && m.senderIp in n.waiting
    ensures var n' := Resolve(n, m);
            && n'.framesOut == n.framesOut + Release(n, m)
            && n' == Learn(n, m).(waiting := n.waiting - {m.senderIp}, framesOut := n'.framesOut)
  {
    ResolveFrames(n, m);
    assert Resolve(n, m).framesOut == n.framesOut + NewFrames(n, Resolve(n, m));
  }

  /** Everything a send does: the datagram goes to the address known, or is kept behind a request to everyone,
      or is dropped while an earlier one waits. */
  lemma SendOutcome(n: Interface, d: Datagram, hop: uint32)
    ensures var n', i := n.SendDatagram(d, hop), FindMapping(n.cache, hop);
            if i < |n.cache| then
              n' == n.(framesOut := n.framesOut + [Frame(n.cache[i].mac, n.mac, 0x800, Internet(d))])
            else if hop in n.waiting then n' == n
            else
              var question := ArpMessage(Request, n.mac, n.ip, NOBODY, hop);
              n' == n.(framesOut := n.framesOut + [Frame(EVERYONE, n.mac, 0x806, Arp(question))],
                       waiting := n.waiting[hop := d], life := n.life[hop := 5000])
  {
  }

  // ----- Runs -----

  function Reached(n: Interface, events: seq<Event>): Interface
    decreases |events|
  {
    if events == [] then n else After(Reached(n, events[..|events| - 1]), events[|events| - 1])
  }

  function Lapse(e: Event): nat {
    if e.Tick? then e.ms else 0
  }

  function TimePassed(events: seq<Event>): nat
    decreases |events|
  {
    if events == [] then 0 else
    TimePassed(events[..|events| - 1]) + Lapse(events[|events| - 1])
  }

  /** No message from the address is taken notice of. */
  predicate SilentAbout(mac: EthernetAddress, events: seq<Event>, ip: uint32) {
    forall e :: e in events && e.Recv? ==> !HeedsFrom(mac, e.frame, ip)
  }

  lemma TicksAreSilent(mac: EthernetAddress, ms: nat, ip: uint32)
    ensures SilentAbout(mac, [Tick(ms)], ip)
  {
  }

  lemma EventKeeps(n: Interface, e: Event)
    requires Consistent(n)
    ensures Consistent(After(n, e)) && After(n, e).mac == n.mac && After(n, e).ip == n.ip
  {
    hide Consistent;
    match e
    case Send(d, hop) => SendConsistent(n, d, hop);
    case Recv(frame) =>
      RecvConsistent(n, frame);
      ReceiptOutcome(n, frame);
    case Tick(ms) => TickConsistent(n, ms);
  }

  // ----- Waiting for an answer -----

  /** The datagram waits for the hop, for so long. */
  ghost predicate Awaits(n: Interface, hop: uint32, d: Datagram, left: nat) {
    Consistent(n) && hop in n.waiting && n.waiting[hop] == d && hop in n.life && n.life[hop] == left
  }

  lemma StillAwaits(n: Interface, hop: uint32, d: Datagram, left: nat, e: Event)
    requires Awaits(n, hop, d, left) && SilentAbout(n.mac, [e], hop)
    ensures var n', passed := After(n, e), Lapse(e);
            if passed < left then Awaits(n', hop, d, left - passed) else hop !in n'.waiting && !Cached(n', hop)
  {
    EventKeeps(n, e);
    match e
    case Send(d', hop') =>
      SendOutcome(n, d', hop');
    case Recv(frame) =>
      assert e in [e];
      ReceiptOutcome(n, frame);
    case Tick(ms) =>
      WaitingIsNotCached(n, hop);
      StaysUncached(n, hop, ms);
  }

  lemma StaysUncached(n: Interface, ip: uint32, ms: nat)
    requires !Cached(n, ip)
    ensures !Cached(n.Tick(ms), ip)
  {
    var cache' := n.Tick(ms).cache;
    forall j | 0 <= j < |cache'| ensures cache'[j].ip != ip { AgedFrom(n.cache, ms, cache'[j]); }
  }

  lemma {:induction false} AwaitsThroughout(n: Interface, hop: uint32, d: Datagram, left: nat, events: seq<Event>)
    requires Awaits(n, hop, d, left) && SilentAbout(n.mac, events, hop) && TimePassed(events) < left
    ensures Awaits(Reached(n, events), hop, d, left - TimePassed(events)) && Reached(n, events).mac == n.mac
    decreases |events|
  {
    hide HeedsFrom, After, Consistent;
    if events != [] {
      var earlier, e := events[..|events| - 1], events[|events| - 1];
      assert forall other :: other in earlier ==> other in events;
      AwaitsThroughout(n, hop, d, left, earlier);
      StillAwaits(Reached(n, earlier), hop, d, left - TimePassed(earlier), e);
      EventKeeps(Reached(n, earlier), e);
    }
  }

  lemma AsksAndWaits(n: Interface, d: Datagram, hop: uint32, events: seq<Event>)
    requires Consistent(n) && !Cached(n, hop) && hop !in n.waiting
    requires SilentAbout(n.mac, events, hop) && TimePassed(events) < 5000
    ensures var n' := Reached(n.SendDatagram(d, hop), events);
            n'.mac == n.mac && Awaits(n', hop, d, 5000 - TimePassed(events))
  {
    hide Consistent, SilentAbout, Interface.SendDatagram, Reached;
    NotFound(n, hop);
    SendConsistent(n, d, hop);
    SendOutcome(n, d, hop);
    AwaitsThroughout(n.SendDatagram(d, hop), hop, d, 5000, events);
  }

  /** A datagram for an unknown hop is the one that goes out when the hop is heard of, whatever else happens in
      the 5000 ms before; and goes to the address that the message names. */
  lemma AnswerReleases(n: Interface, d: Datagram, hop: uint32, events: seq<Event>, frame: Frame)
    requires Consistent(n) && !Cached(n, hop) && hop !in n.waiting
    requires SilentAbout(n.mac, events, hop) && TimePassed(events) < 5000 && HeedsFrom(n.mac, frame, hop)
    ensures var waiting, m := Reached(n.SendDatagram(d, hop), events), frame.payload.message;
            waiting.RecvFrame(frame).0.framesOut ==
              waiting.framesOut + [Frame(m.senderMac, n.mac, 0x800, Internet(d))] + Answer(waiting, m)
  {
    hide Consistent, Cached, SilentAbout, Heeds, Interface.SendDatagram, Interface.RecvFrame, Reached, Answer;
    AsksAndWaits(n, d, hop, events);
    ReceiptOutcome(Reached(n.SendDatagram(d, hop), events), frame);
  }

  /** Without an answer it is given up after 5000 ms, and the next send asks again. */
  lemma SilenceDiscards(n: Interface, d: Datagram, hop: uint32, events: seq<Event>, ms: nat, d': Datagram)
    requires Consistent(n) && !Cached(n, hop) && hop !in n.waiting
    requires SilentAbout(n.mac, events, hop) && TimePassed(events) < 5000 <= TimePassed(events) + ms
    ensures var n' := Reached(n.SendDatagram(d, hop), events).Tick(ms);
            && hop !in n'.waiting
            && n'.SendDatagram(d', hop).waiting == n'.waiting[hop := d']
            && n'.SendDatagram(d', hop).framesOut == n'.framesOut +
                 [Frame(EVERYONE, n'.mac, 0x806, Arp(ArpMessage(Request, n'.mac, n'.ip, NOBODY, hop)))]
  {
    hide Consistent, SilentAbout, Interface.SendDatagram, Interface.Tick, Reached, Awaits, FindMapping;
    var waiting := Reached(n.SendDatagram(d, hop), events);
    AsksAndWaits(n, d, hop, events);
    TicksAreSilent(waiting.mac, ms, hop);
    StillAwaits(waiting, hop, d, 5000 - TimePassed(events), Event.Tick(ms));
    NotFound(waiting.Tick(ms), hop);
    SendOutcome(waiting.Tick(ms), d', hop);
  }

  // ----- Addresses that have been learnt -----

  lemma StillMapped(n: Interface, m: Mapping, e: Event)
    requires Consistent(n) && m in n.cache
    ensures var n', passed := After(n, e), Lapse(e);
            if passed < m.left then m.(left := m.left - passed) in n'.cache else !Cached(n', m.ip)
  {
    match e
    case Send(d, hop) => SendOutcome(n, d, hop);
    case Recv(frame) => ReceiptOutcome(n, frame);
    case Tick(ms) =>
      if ms < m.left { AgedTo(n.cache, ms, m); } else { Expires(n, m, ms); }
  }

  lemma Expires(n: Interface, m: Mapping, ms: nat)
    requires Consistent(n) && m in n.cache && m.left <= ms
    ensures !Cached(n.Tick(ms), m.ip)
  {
    var cache' := n.Tick(ms).cache;
    forall j | 0 <= j < |cache'| ensures cache'[j].ip != m.ip {
      if cache'[j].ip == m.ip {
        AgedFrom(n.cache, ms, cache'[j]);
        OneEntry(n, m, Older(cache'[j], ms));
      }
    }
  }

  lemma OneEntry(n: Interface, a: Mapping, b: Mapping)
    requires Consistent(n) && a in n.cache && b in n.cache && a.ip == b.ip
    ensures a == b
  {
    var i :| 0 <= i < |n.cache| && n.cache[i] == a;
    var j :| 0 <= j < |n.cache| && n.cache[j] == b;
    assert i == j;
  }

  lemma {:induction false} MappedThroughout(n: Interface, m: Mapping, events: seq<Event>)
    requires Consistent(n) && m in n.cache && TimePassed(events) < m.left
    ensures var n' := Reached(n, events);
            Consistent(n') && n'.mac == n.mac && m.(left := m.left - TimePassed(events)) in n'.cache
    decreases |events|
  {
    hide Consistent, After;
    if events != [] {
      var earlier, e := events[..|events| - 1], events[|events| - 1];
      MappedThroughout(n, m, earlier);
      var before := Reached(n, earlier);
      EventKeeps(before, e);
      StillMapped(before, m.(left := m.left - TimePassed(earlier)), e);
    }
  }

  /** An address learnt from an answer serves every datagram of the next 30000 ms, and no later one; whatever other
      messages arrive meanwhile, from that address too. */
  lemma LearntServes(n: Interface, frame: Frame, events: seq<Event>, d: Datagram)
    requires Consistent(n) && Heeds(n.mac, frame) && TimePassed(events) < 30000
    requires var m := frame.payload.message;
             m.senderIp in n.waiting || (m.opcode == Request && !Cached(n, m.senderIp))
    ensures var n', m := Reached(n.RecvFrame(frame).0, events), frame.payload.message;
            && n'.SendDatagram(d, m.senderIp) ==
                 n'.(framesOut := n'.framesOut + [Frame(m.senderMac, n.mac, 0x800, Internet(d))])
            && forall ms: nat :: TimePassed(events) + ms >= 30000 ==> !Cached(n'.Tick(ms), m.senderIp)
  {
    hide Consistent, Interface.SendDatagram, Interface.RecvFrame, Interface.Tick, Reached, FindMapping;
    var m, heard := frame.payload.message, n.RecvFrame(frame).0;
    ReceiptOutcome(n, frame);
    RecvConsistent(n, frame);
    var learnt := Mapping(m.senderIp, m.senderMac, 30000);
    assert heard.cache[|n.cache|] == learnt;
    MappedThroughout(heard, learnt, events);
    var n', left := Reached(heard, events), learnt.(left := 30000 - TimePassed(events));
    FoundInCache(n', left);
    SendOutcome(n', d, m.senderIp);
    forall ms: nat | TimePassed(events) + ms >= 30000 ensures !Cached(n'.Tick(ms), m.senderIp) {
      Expires(n', left, ms);
    }
  }

  lemma FoundInCache(n: Interface, m: Mapping)
    requires Consistent(n) && m in n.cache
    ensures FindMapping(n.cache, m.ip) < |n.cache| && n.cache[FindMapping(n.cache, m.ip)] == m
  {
    var j :| 0 <= j < |n.cache| && n.cache[j] == m;
    assert FindMapping(n.cache, m.ip) <= j;
  }
}
