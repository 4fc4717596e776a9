/** Address resolution over time: how often requests go out, and how fresh the addresses in use are. */
module AddressResolution {
  import opened Base
  import opened Ipv4
  import opened NetworkInterfaces

  datatype Event = Send(datagram: Datagram, nextHop: uint32) | Recv(frame: Frame) | Tick(ms: nat)

  /** A broadcast request for an address. */
  datatype Asked = Asked(ip: uint32, time: nat)
  /** An ARP message received, in which an address names its hardware address. */
  datatype Heard = Heard(ip: uint32, mac: EthernetAddress, time: nat)
  /** An IPv4 frame sent towards a next hop with a hardware address. */
  datatype Used = Used(ip: uint32, mac: EthernetAddress, time: nat)

  /** An interface observed from outside: the tick time, and what went out and came in. */
  datatype Observed = Observed(n: Interface, now: nat, asked: seq<Asked>, heard: seq<Heard>, used: seq<Used>)

  function After(n: Interface, e: Event): Interface {
    match e
    case Send(d, nextHop) => n.SendDatagram(d, nextHop)
    case Recv(frame) => n.RecvFrame(frame).0
    case Tick(ms) => n.Tick(ms)
  }

  function AskedIn(frames: seq<Frame>, now: nat): seq<Asked>
    decreases |frames|
  {
    if frames == [] then [] else
    var f := frames[0];
    (if f.payload.Arp? && f.payload.message.opcode == Request then [Asked(f.payload.message.targetIp, now)] else [])
    + AskedIn(frames[1..], now)
  }

  function UsedIn(frames: seq<Frame>, towards: uint32, now: nat): seq<Used>
    decreases |frames|
  {
    if frames == [] then [] else
    (if frames[0].payload.Internet? then [Used(towards, frames[0].dst, now)] else [])
    + UsedIn(frames[1..], towards, now)
  }

  function HeardIn(e: Event, now: nat): seq<Heard> {
    if e.Recv? && e.frame.payload.Arp? then
      [Heard(e.frame.payload.message.senderIp, e.frame.payload.message.senderMac, now)]
    else []
  }

  /** The next hop that a frame sent in this event is for. */
  function Towards(e: Event): uint32 {
    if e.Send? then e.nextHop
    else if e.Recv? && e.frame.payload.Arp? then e.frame.payload.message.senderIp
    else 0
  }

  /** The frames that an event added to the outbound queue. */
  function NewFrames(n: Interface, n': Interface): seq<Frame> {
    n'.framesOut[Min(|n.framesOut|, |n'.framesOut|)..]
  }

  function Step(o: Observed, e: Event): Observed {
    var n' := After(o.n, e);
    var now := o.now + (if e.Tick? then e.ms else 0);
    var frames := NewFrames(o.n, n');
    Observed(n', now, o.asked + AskedIn(frames, now), o.heard + HeardIn(e, now),
             o.used + UsedIn(frames, Towards(e), now))
  }

  function Run(mac: EthernetAddress, ip: uint32, events: seq<Event>): Observed
    decreases |events|
  {
    if events == [] then Observed(NewInterface(mac, ip), 0, [], [], [])
    else Step(Run(mac, ip, events[..|events| - 1]), events[|events| - 1])
  }

  /** For how long no new request for the address can go out. */
  function Remaining(n: Interface, ip: uint32): nat {
    var i := FindMapping(n.cache, ip);
    if ip in n.waiting then (if ip in n.life then n.life[ip] else 0)
    else if i < |n.cache| then n.cache[i].left
    else 0
  }

  ghost predicate Vouches(heard: seq<Heard>, ip: uint32, mac: EthernetAddress, expiry: nat) {
    exists h :: h in heard && h.ip == ip && h.mac == mac && h.time + CACHE_TIME == expiry
  }

  ghost predicate RequestsCounted(o: Observed) {
    && (forall a :: a in o.asked ==> a.time <= o.now && a.time + REQUEST_TIME <= o.now + Remaining(o.n, a.ip))
    && (forall i, j :: 0 <= i < j < |o.asked| && o.asked[i].ip == o.asked[j].ip ==>
          o.asked[i].time + REQUEST_TIME <= o.asked[j].time)
  }

  ghost predicate CacheVouched(o: Observed) {
    forall m :: m in o.n.cache ==> Vouches(o.heard, m.ip, m.mac, o.now + m.left)
  }

  ghost predicate FreshlyHeard(heard: seq<Heard>, u: Used) {
    exists h :: h in heard && h.ip == u.ip && h.mac == u.mac && h.time <= u.time < h.time + CACHE_TIME
  }

  ghost predicate UsesFresh(o: Observed) {
    forall u :: u in o.used ==> FreshlyHeard(o.heard, u)
  }

  ghost predicate Timely(o: Observed) {
    Consistent(o.n) && RequestsCounted(o) && CacheVouched(o) && UsesFresh(o)
  }

  lemma CachedRemaining(n: Interface, m: Mapping)
    requires Consistent(n) && m in n.cache
    ensures m.ip !in n.waiting && Remaining(n, m.ip) == m.left
  {
    var j :| 0 <= j < |n.cache| && n.cache[j] == m;
    var i := FindMapping(n.cache, m.ip);
    assert i <= j;
  }

  // ----- Sending -----

  /** A send adds one IPv4 frame, one request, or nothing. */
  lemma SendFrames(n: Interface, d: Datagram, nextHop: uint32)
    ensures var frames, i := NewFrames(n, n.SendDatagram(d, nextHop)), FindMapping(n.cache, nextHop);
            frames ==
            if i < |n.cache| then [Frame(n.cache[i].mac, n.mac, TYPE_IPV4, Internet(d))]
            else if nextHop in n.waiting then []
            else [RequestFrame(n.mac, n.ip, nextHop)]
  {
  }

  lemma SingleFrame(f: Frame, towards: uint32, now: nat)
    ensures AskedIn([f], now) == if f.payload.Arp? && f.payload.message.opcode == Request
                                 then [Asked(f.payload.message.targetIp, now)] else []
    ensures UsedIn([f], towards, now) == if f.payload.Internet? then [Used(towards, f.dst, now)] else []
  {
    assert [f][1..] == [];
  }

  /** An address without a remaining time is neither awaited nor cached, so earlier requests are long past. */
  lemma AppendRequest(asked: seq<Asked>, a: Asked)
    requires forall i, j :: 0 <= i < j < |asked| && asked[i].ip == asked[j].ip ==>
               asked[i].time + REQUEST_TIME <= asked[j].time
    requires forall e :: e in asked && e.ip == a.ip ==> e.time + REQUEST_TIME <= a.time
    ensures var all := asked + [a];
            forall i, j :: 0 <= i < j < |all| && all[i].ip == all[j].ip ==> all[i].time + REQUEST_TIME <= all[j].time
  {
    var all := asked + [a];
    forall i, j | 0 <= i < j < |all| && all[i].ip == all[j].ip ensures all[i].time + REQUEST_TIME <= all[j].time {
      if j == |asked| { assert asked[i] in asked; }
    }
  }

  /** The tables are as before; one more address has been used. */
  lemma UseTimely(o: Observed, n': Interface, u: Used)
    requires Timely(o) && FreshlyHeard(o.heard, u)
    requires n' == o.n.(framesOut := n'.framesOut)
    ensures Timely(Observed(n', o.now, o.asked, o.heard, o.used + [u]))
  {
    forall ip ensures Remaining(n', ip) == Remaining(o.n, ip) { }
  }

  lemma KnownStep(o: Observed, d: Datagram, nextHop: uint32)
    requires FindMapping(o.n.cache, nextHop) < |o.n.cache|
    ensures var u := Used(nextHop, o.n.cache[FindMapping(o.n.cache, nextHop)].mac, o.now);
            Step(o, Send(d, nextHop)) == Observed(o.n.SendDatagram(d, nextHop), o.now, o.asked, o.heard, o.used + [u])
  {
    SendFrames(o.n, d, nextHop);
    SingleFrame(Frame(o.n.cache[FindMapping(o.n.cache, nextHop)].mac, o.n.mac, TYPE_IPV4, Internet(d)), nextHop, o.now);
    assert o.asked + [] == o.asked && o.heard + [] == o.heard;
  }

  lemma SendKnownTimely(o: Observed, d: Datagram, nextHop: uint32)
    requires Timely(o) && FindMapping(o.n.cache, nextHop) < |o.n.cache|
    ensures Timely(Step(o, Send(d, nextHop)))
  {
    var m := o.n.cache[FindMapping(o.n.cache, nextHop)];
    var u := Used(nextHop, m.mac, o.now);
    assert FreshlyHeard(o.heard, u) by {
      assert m in o.n.cache && Vouches(o.heard, m.ip, m.mac, o.now + m.left);
    }
    UseTimely(o, o.n.SendDatagram(d, nextHop), u);
    KnownStep(o, d, nextHop);
  }

  lemma RequestRemaining(n: Interface, d: Datagram, nextHop: uint32, ip: uint32)
    requires FindMapping(n.cache, nextHop) == |n.cache| && nextHop !in n.waiting
    ensures Remaining(n, nextHop) == 0
    ensures Remaining(n.SendDatagram(d, nextHop), ip) == if ip == nextHop then REQUEST_TIME else Remaining(n, ip)
  {
  }

  lemma SendUnknownTimely(o: Observed, d: Datagram, nextHop: uint32)
    requires Timely(o) && FindMapping(o.n.cache, nextHop) == |o.n.cache| && nextHop !in o.n.waiting
    ensures Timely(Step(o, Send(d, nextHop)))
  {
    hide NewFrames, FindMapping, Consistent, UsedIn, Remaining, AskedIn;
    var n, n' := o.n, o.n.SendDatagram(d, nextHop);
    var o' := Step(o, Send(d, nextHop));
    SendConsistent(n, d, nextHop);
    SendFrames(n, d, nextHop);
    SingleFrame(RequestFrame(n.mac, n.ip, nextHop), nextHop, o.now);
    assert o' == Observed(n', o.now, o.asked + [Asked(nextHop, o.now)], o.heard + [], o.used + []);
    RequestRemaining(n, d, nextHop, nextHop);
    AppendRequest(o.asked, Asked(nextHop, o.now));
    forall a | a in o'.asked ensures a.time + REQUEST_TIME <= o'.now + Remaining(n', a.ip) {
      RequestRemaining(n, d, nextHop, a.ip);
    }
  }

  lemma SendTimely(o: Observed, d: Datagram, nextHop: uint32)
    requires Timely(o)
    ensures Timely(Step(o, Send(d, nextHop)))
  {
    if FindMapping(o.n.cache, nextHop) < |o.n.cache| {
      SendKnownTimely(o, d, nextHop);
    } else if nextHop !in o.n.waiting {
      SendUnknownTimely(o, d, nextHop);
    } else {
      SendFrames(o.n, d, nextHop);
      assert Step(o, Send(d, nextHop)) == o;
    }
  }

  // ----- Receiving -----

  /** Learning an address that is not in the cache. */
  lemma {:induction false} FindInExtended(cache: seq<Mapping>, m: Mapping, ip: uint32)
    ensures FindMapping(cache + [m], ip) ==
            if FindMapping(cache, ip) < |cache| then FindMapping(cache, ip)
            else if m.ip == ip then |cache| else |cache| + 1
  {
    var i, k := FindMapping(cache + [m], ip), FindMapping(cache, ip);
    if i < |cache| { assert (cache + [m])[i] == cache[i]; }
    if k < |cache| { assert (cache + [m])[k] == cache[k]; }
    assert (cache + [m])[|cache|] == m;
    assert i == |cache| ==> m.ip == ip;
  }

  /** The observation after an answer has been taken in and before the reply, if one is due. */
  function Heeded(o: Observed, m: ArpMessage, n': Interface): Observed {
    Observed(n', o.now, o.asked, o.heard + [Heard(m.senderIp, m.senderMac, o.now)],
             o.used + UsedIn(NewFrames(o.n, n'), m.senderIp, o.now))
  }

  lemma LearnVouched(o: Observed, m: ArpMessage, n': Interface)
    requires CacheVouched(o) && n'.cache == o.n.cache + [Mapping(m.senderIp, m.senderMac, CACHE_TIME)]
    ensures forall e :: e in n'.cache ==>
              Vouches(o.heard + [Heard(m.senderIp, m.senderMac, o.now)], e.ip, e.mac, o.now + e.left)
  {
    var heard' := o.heard + [Heard(m.senderIp, m.senderMac, o.now)];
    forall e | e in n'.cache ensures Vouches(heard', e.ip, e.mac, o.now + e.left) {
      if e in o.n.cache {
        var h :| h in o.heard && h.ip == e.ip && h.mac == e.mac && h.time + CACHE_TIME == o.now + e.left;
        assert h in heard';
      } else {
        assert Heard(m.senderIp, m.senderMac, o.now) in heard';
      }
    }
  }

  lemma MoreHeard(heard: seq<Heard>, more: seq<Heard>, used: seq<Used>)
    requires forall u :: u in used ==> FreshlyHeard(heard, u)
    ensures forall u :: u in used ==> FreshlyHeard(heard + more, u)
  {
    forall u | u in used ensures FreshlyHeard(heard + more, u) {
      var h :| h in heard && h.ip == u.ip && h.mac == u.mac && h.time <= u.time < h.time + CACHE_TIME;
      assert h in heard + more;
    }
  }

  /** The waiting datagram goes out to the address just heard. */
  lemma ResolveFrames(n: Interface, m: ArpMessage)
    requires Consistent(n) && m.senderIp in n.waiting
    ensures NewFrames(n, Resolve(n, m)) == [Frame(m.senderMac, n.mac, TYPE_IPV4, Internet(n.waiting[m.senderIp]))]
    ensures Resolve(n, m) == Learn(n, m).(waiting := n.waiting - {m.senderIp}, framesOut := Resolve(n, m).framesOut)
    ensures n.framesOut <= Resolve(n, m).framesOut
  {
    WaitingIsNotCached(n, m.senderIp);
    assert FindMapping(n.cache, m.senderIp) == |n.cache|;
    FindInExtended(n.cache, Mapping(m.senderIp, m.senderMac, CACHE_TIME), m.senderIp);
    SendFrames(Learn(n, m).(waiting := n.waiting - {m.senderIp}), n.waiting[m.senderIp], m.senderIp);
  }

  lemma LearnRemaining(n: Interface, m: ArpMessage, n': Interface, ip: uint32)
    requires Consistent(n) && FindMapping(n.cache, m.senderIp) == |n.cache|
    requires n'.cache == n.cache + [Mapping(m.senderIp, m.senderMac, CACHE_TIME)]
    requires n'.waiting == n.waiting - {m.senderIp} && n'.life == n.life
    ensures Remaining(n', ip) >= Remaining(n, ip)
  {
    FindInExtended(n.cache, Mapping(m.senderIp, m.senderMac, CACHE_TIME), ip);
    assert REQUEST_TIME <= CACHE_TIME;
  }

  lemma ResolveTimely(o: Observed, m: ArpMessage)
    requires Timely(o) && m.senderIp in o.n.waiting
    ensures Timely(Heeded(o, m, Resolve(o.n, m)))
  {
    var n' := Resolve(o.n, m);
    ResolveConsistent(o.n, m);
    ResolveFrames(o.n, m);
    WaitingIsNotCached(o.n, m.senderIp);
    assert FindMapping(o.n.cache, m.senderIp) == |o.n.cache|;
    LearnVouched(o, m, n');
    var h := Heard(m.senderIp, m.senderMac, o.now);
    MoreHeard(o.heard, [h], o.used);
    SingleFrame(NewFrames(o.n, n')[0], m.senderIp, o.now);
    assert h in o.heard + [h];
    assert FreshlyHeard(o.heard + [h], Used(m.senderIp, m.senderMac, o.now));
    forall a | a in o.asked ensures a.time + REQUEST_TIME <= o.now + Remaining(n', a.ip) {
      LearnRemaining(o.n, m, n', a.ip);
    }
  }

  lemma NothingSent(o: Observed, m: ArpMessage, n': Interface)
    requires n'.framesOut == o.n.framesOut
    ensures Heeded(o, m, n') == Observed(n', o.now, o.asked, o.heard + [Heard(m.senderIp, m.senderMac, o.now)], o.used)
  {
    assert NewFrames(o.n, n') == [];
    assert UsedIn([], m.senderIp, o.now) == [];
  }

  lemma LearnTimely(o: Observed, m: ArpMessage)
    requires Timely(o) && m.senderIp !in o.n.waiting && FindMapping(o.n.cache, m.senderIp) == |o.n.cache|
    ensures Timely(Heeded(o, m, Learn(o.n, m)))
  {
    var n' := Learn(o.n, m);
    assert !Cached(o.n, m.senderIp);
    LearnConsistent(o.n, m);
    assert o.n.waiting - {m.senderIp} == o.n.waiting;
    NothingSent(o, m, n');
    LearnVouched(o, m, n');
    MoreHeard(o.heard, [Heard(m.senderIp, m.senderMac, o.now)], o.used);
    forall a | a in o.asked ensures a.time + REQUEST_TIME <= o.now + Remaining(n', a.ip) {
      LearnRemaining(o.n, m, n', a.ip);
    }
  }

  /** A message that teaches nothing. */
  lemma IgnoreTimely(o: Observed, m: ArpMessage)
    requires Timely(o)
    ensures Timely(Heeded(o, m, o.n))
  {
    NothingSent(o, m, o.n);
    var heard' := o.heard + [Heard(m.senderIp, m.senderMac, o.now)];
    MoreHeard(o.heard, [Heard(m.senderIp, m.senderMac, o.now)], o.used);
    forall e | e in o.n.cache ensures Vouches(heard', e.ip, e.mac, o.now + e.left) {
      var h :| h in o.heard && h.ip == e.ip && h.mac == e.mac && h.time + CACHE_TIME == o.now + e.left;
      assert h in heard';
    }
  }

  /** A reply that is sent besides changes nothing of what is counted. */
  lemma AnswerObserved(o: Observed, m: ArpMessage, n': Interface, n'': Interface)
    requires o.n.framesOut <= n'.framesOut && n'' == AnswerRequest(n', m)
    requires AskedIn(NewFrames(o.n, n'), o.now) == []
    requires Timely(Heeded(o, m, n'))
    ensures Timely(Observed(n'', o.now, o.asked + AskedIn(NewFrames(o.n, n''), o.now),
                            o.heard + [Heard(m.senderIp, m.senderMac, o.now)],
                            o.used + UsedIn(NewFrames(o.n, n''), m.senderIp, o.now)))
  {
    FramesDoNotMatter(n', n'');
    var frames, frames' := NewFrames(o.n, n'), NewFrames(o.n, n'');
    if m.targetIp == n'.ip {
      assert frames' == frames + [ReplyFrame(n'.mac, n'.ip, m)];
      AppendSilent(frames, ReplyFrame(n'.mac, n'.ip, m), m.senderIp, o.now);
    }
    assert forall ip :: Remaining(n'', ip) == Remaining(n', ip);
  }

  lemma {:induction false} AppendSilent(frames: seq<Frame>, f: Frame, towards: uint32, now: nat)
    requires f.payload.Arp? && f.payload.message.opcode == Reply
    ensures AskedIn(frames + [f], now) == AskedIn(frames, now)
    ensures UsedIn(frames + [f], towards, now) == UsedIn(frames, towards, now)
    decreases |frames|
  {
    if frames == [] {
      SingleFrame(f, towards, now);
    } else {
      AppendSilent(frames[1..], f, towards, now);
      assert (frames + [f])[1..] == frames[1..] + [f];
    }
  }

  /** What a received message does before any reply: it resolves, teaches, or is ignored. */
  lemma HeedTimely(o: Observed, m: ArpMessage, n': Interface)
    requires Timely(o)
    requires n' == o.n || n' == LearnFromRequest(o.n, m) || (m.senderIp in o.n.waiting && n' == Resolve(o.n, m))
    ensures Timely(Heeded(o, m, n')) && o.n.framesOut <= n'.framesOut && AskedIn(NewFrames(o.n, n'), o.now) == []
  {
    if n' == o.n {
      IgnoreTimely(o, m);
      assert NewFrames(o.n, n') == [];
    } else if m.senderIp in o.n.waiting {
      ResolveTimely(o, m);
      ResolveFrames(o.n, m);
      SingleFrame(NewFrames(o.n, n')[0], m.senderIp, o.now);
    } else {
      LearnTimely(o, m);
      assert NewFrames(o.n, n') == [];
    }
  }

  lemma RecvTimely(o: Observed, frame: Frame)
    requires Timely(o)
    ensures Timely(Step(o, Recv(frame)))
  {
    var o', n' := Step(o, Recv(frame)), o.n.RecvFrame(frame).0;
    if frame.payload.Arp? {
      var m := frame.payload.message;
      if frame.dst != o.n.mac && frame.dst == ETHERNET_BROADCAST && frame.etype != TYPE_IPV4 && m.opcode == Request {
        HeedTimely(o, m, LearnFromRequest(o.n, m));
        AnswerObserved(o, m, LearnFromRequest(o.n, m), n');
      } else {
        HeedTimely(o, m, n');
        assert o' == Heeded(o, m, n');
      }
    } else {
      assert NewFrames(o.n, n') == [];
      assert o' == o.(asked := o.asked + [], heard := o.heard + [], used := o.used + []);
      assert o' == o;
    }
  }

  // ----- Ticks -----

  lemma TickRemaining(n: Interface, ms: nat, ip: uint32)
    requires Consistent(n)
    ensures Remaining(n.Tick(ms), ip) + ms >= Remaining(n, ip)
  {
    hide FindMapping;
    TickConsistent(n, ms);
    var i := FindMapping(n.cache, ip);
    if ip !in n.waiting && i < |n.cache| && n.cache[i].left > ms {
      AgedTo(n.cache, ms, n.cache[i]);
      CachedRemaining(n.Tick(ms), n.cache[i].(left := n.cache[i].left - ms));
    }
  }

  lemma TickTimely(o: Observed, ms: nat)
    requires Timely(o)
    ensures Timely(Step(o, Tick(ms)))
  {
    var n' := o.n.Tick(ms);
    var o' := Step(o, Tick(ms));
    TickConsistent(o.n, ms);
    assert NewFrames(o.n, n') == [];
    assert o' == Observed(n', o.now + ms, o.asked, o.heard, o.used);
    forall a | a in o.asked ensures a.time + REQUEST_TIME <= o'.now + Remaining(n', a.ip) {
      TickRemaining(o.n, ms, a.ip);
    }
    forall m | m in n'.cache ensures Vouches(o'.heard, m.ip, m.mac, o'.now + m.left) {
      AgedFrom(o.n.cache, ms, m);
      assert Vouches(o.heard, m.ip, m.mac, o.now + Older(m, ms).left);
    }
  }

  // ----- Whole runs -----

  lemma {:induction false} RunIsTimely(mac: EthernetAddress, ip: uint32, events: seq<Event>)
    ensures Timely(Run(mac, ip, events))
    decreases |events|
  {
    if events != [] {
      var o := Run(mac, ip, events[..|events| - 1]);
      RunIsTimely(mac, ip, events[..|events| - 1]);
      match events[|events| - 1]
      case Send(d, nextHop) => SendTimely(o, d, nextHop);
      case Recv(frame) => RecvTimely(o, frame);
      case Tick(ms) => TickTimely(o, ms);
    }
  }

  /** Over every run: two broadcast requests for one address are at least 5000 ms of tick time apart, and
      every IPv4 frame goes to a hardware address that an ARP message from the next hop named less than
      30000 ms of tick time before. */
  lemma ResolutionIsTimely(mac: EthernetAddress, ip: uint32, events: seq<Event>)
    ensures var o := Run(mac, ip, events);
            && (forall i, j :: 0 <= i < j < |o.asked| && o.asked[i].ip == o.asked[j].ip ==>
                  o.asked[j].time - o.asked[i].time >= 5000)
            && (forall u :: u in o.used ==>
                  exists h :: h in o.heard && h.ip == u.ip && h.mac == u.mac && 0 <= u.time - h.time < 30000)
  {
    RunIsTimely(mac, ip, events);
    var o := Run(mac, ip, events);
    forall u | u in o.used
      ensures exists h :: h in o.heard && h.ip == u.ip && h.mac == u.mac && 0 <= u.time - h.time < 30000
    {
      assert FreshlyHeard(o.heard, u);
      var h :| h in o.heard && h.ip == u.ip && h.mac == u.mac && h.time <= u.time < h.time + CACHE_TIME;
    }
  }
}
