/** The Ethernet interface: address resolution with a cache, waiting datagrams and lifetimes. */
module NetworkInterfaces {
  import opened Base
  import opened Ipv4

  type EthernetAddress = a: seq<byte> | |a| == 6 witness [0, 0, 0, 0, 0, 0]

  const ETHERNET_BROADCAST: EthernetAddress := [0xFF, 0xFF, 0xFF, 0xFF, 0xFF, 0xFF]
  const ETHERNET_UNKNOWN: EthernetAddress := [0, 0, 0, 0, 0, 0]
  const TYPE_IPV4: uint16 := 0x800
  const TYPE_ARP: uint16 := 0x806
  const CACHE_TIME := 30000
  const REQUEST_TIME := 5000

  datatype Opcode = Request | Reply

  datatype ArpMessage = ArpMessage(
    opcode: Opcode, senderMac: EthernetAddress, senderIp: uint32, targetMac: EthernetAddress, targetIp: uint32)

  /** What the bytes of a frame parse as, if anything. */
  datatype Payload = Arp(message: ArpMessage) | Internet(datagram: Datagram) | Unreadable

  datatype Frame = Frame(dst: EthernetAddress, src: EthernetAddress, etype: uint16, payload: Payload)

  datatype Mapping = Mapping(ip: uint32, mac: EthernetAddress, left: nat)

  datatype Interface = Interface(
    mac: EthernetAddress, ip: uint32, framesOut: seq<Frame>, cache: seq<Mapping>,
    waiting: map<uint32, Datagram>, life: map<uint32, nat>)
  {
    /** A known next hop gets the datagram at once; for an unknown one the datagram waits for an answer
        to a broadcast request, unless such an answer is awaited already. */
    function SendDatagram(d: Datagram, nextHop: uint32): Interface {
      var i := FindMapping(cache, nextHop);
      if i < |cache| then
        this.(framesOut := framesOut + [Frame(cache[i].mac, mac, TYPE_IPV4, Internet(d))])
      else if nextHop in waiting then this
      else
        this.(framesOut := framesOut + [RequestFrame(mac, ip, nextHop)],
              waiting := waiting[nextHop := d],
              life := life[nextHop := REQUEST_TIME])
    }

    /** The new state, and the datagram handed up, if any. */
    function RecvFrame(frame: Frame): (Interface, Option<Datagram>) {
      if frame.dst == mac then
        if frame.etype == TYPE_ARP then
          (if frame.payload.Arp? && frame.payload.message.opcode == Reply && frame.payload.message.senderIp in waiting
           then Resolve(this, frame.payload.message) else this,
           None)
        else (this, if frame.payload.Internet? then Some(frame.payload.datagram) else None)
      else if frame.dst == ETHERNET_BROADCAST && frame.etype != TYPE_IPV4
              && frame.payload.Arp? && frame.payload.message.opcode == Request then
        (AnswerRequest(LearnFromRequest(this, frame.payload.message), frame.payload.message), None)
      else (this, None)
    }

    function Tick(ms: nat): Interface {
      this.(cache := AgeCache(cache, ms), waiting := StillWaiting(waiting, life, ms), life := AgeLife(life, ms))
    }
  }

  function NewInterface(mac: EthernetAddress, ip: uint32): Interface {
    Interface(mac, ip, [], [], map[], map[])
  }

  /** The first entry for an address, or the length of the cache. */
  function FindMapping(cache: seq<Mapping>, ip: uint32): (i: nat)
    ensures i <= |cache|
    ensures i < |cache| ==> cache[i].ip == ip
    ensures forall j :: 0 <= j < i ==> cache[j].ip != ip
    decreases |cache|
  {
    if cache == [] then 0
    else if cache[0].ip == ip then 0
    else
      assert forall j :: 0 < j < |cache| ==> cache[1..][j - 1] == cache[j];
      1 + FindMapping(cache[1..], ip)
  }

  function RequestFrame(mac: EthernetAddress, ip: uint32, target: uint32): Frame {
    Frame(ETHERNET_BROADCAST, mac, TYPE_ARP, Arp(ArpMessage(Request, mac, ip, ETHERNET_UNKNOWN, target)))
  }

  function ReplyFrame(mac: EthernetAddress, ip: uint32, to: ArpMessage): Frame {
    Frame(to.senderMac, mac, TYPE_ARP, Arp(ArpMessage(Reply, mac, ip, to.senderMac, to.senderIp)))
  }

  function Learn(n: Interface, m: ArpMessage): Interface {
    n.(cache := n.cache + [Mapping(m.senderIp, m.senderMac, CACHE_TIME)])
  }

  /** The awaited answer: the mapping is learnt and the waiting datagram goes out. */
  function Resolve(n: Interface, m: ArpMessage): Interface
    requires m.senderIp in n.waiting
  {
    Learn(n, m).(waiting := n.waiting - {m.senderIp}).SendDatagram(n.waiting[m.senderIp], m.senderIp)
  }

  function LearnFromRequest(n: Interface, m: ArpMessage): Interface {
    if m.senderIp in n.waiting then Resolve(n, m)
    else if FindMapping(n.cache, m.senderIp) == |n.cache| then Learn(n, m)
    else n
  }

  function AnswerRequest(n: Interface, m: ArpMessage): Interface {
    if m.targetIp == n.ip then n.(framesOut := n.framesOut + [ReplyFrame(n.mac, n.ip, m)]) else n
  }

  function AgeCache(cache: seq<Mapping>, ms: nat): seq<Mapping>
    decreases |cache|
  {
    if cache == [] then [] else
    var rest := AgeCache(cache[..|cache| - 1], ms);
    var last := cache[|cache| - 1];
    if last.left > ms then rest + [last.(left := last.left - ms)] else rest
  }

  function AgeLife(life: map<uint32, nat>, ms: nat): map<uint32, nat> {
    map ip | ip in life && life[ip] > ms :: life[ip] - ms
  }

  function StillWaiting(waiting: map<uint32, Datagram>, life: map<uint32, nat>, ms: nat): map<uint32, Datagram> {
    map ip | ip in waiting && !(ip in life && life[ip] <= ms) :: waiting[ip]
  }

  lemma NothingToAge(ms: nat)
    ensures AgeCache([], ms) == []
  {
  }

  function AgeOne(m: Mapping, ms: nat): seq<Mapping> {
    if m.left > ms then [m.(left := m.left - ms)] else []
  }

  /** Ageing goes entry by entry, from the front as well. */
  lemma {:induction false} AgeFirst(cache: seq<Mapping>, ms: nat)
    requires cache != []
    ensures AgeCache(cache, ms) == AgeOne(cache[0], ms) + AgeCache(cache[1..], ms)
    decreases |cache|
  {
    var front := cache[..|cache| - 1];
    if front == [] {
      assert cache[1..] == [];
    } else {
      AgeFirst(front, ms);
      assert cache[1..][..|cache| - 2] == front[1..];
    }
  }

  /** The entry behind those that have been visited is aged, or taken out. */
  lemma AgeStep(aged: seq<Mapping>, rest: seq<Mapping>, ms: nat)
    requires rest != []
    ensures var cache, it, m := aged + rest, |aged|, rest[0];
            && cache[it] == m
            && (if m.left > ms then cache[it := m.(left := m.left - ms)] else cache[..it] + cache[it + 1..])
               == (aged + AgeOne(m, ms)) + rest[1..]
            && aged + AgeCache(rest, ms) == (aged + AgeOne(m, ms)) + AgeCache(rest[1..], ms)
  {
    hide AgeCache;
    AgeFirst(rest, ms);
  }

  /** The lifetimes and the waiting datagrams after ageing, address by address. */
  lemma AgedIs(life: map<uint32, nat>, waiting: map<uint32, Datagram>, ms: nat,
               life': map<uint32, nat>, waiting': map<uint32, Datagram>)
    requires forall k :: k in life' <==> k in life && life[k] > ms
    requires forall k :: k in life' ==> life'[k] == life[k] - ms
    requires forall k :: k in waiting' <==> k in waiting && !(k in life && life[k] <= ms)
    requires forall k :: k in waiting' ==> waiting'[k] == waiting[k]
    ensures life' == AgeLife(life, ms) && waiting' == StillWaiting(waiting, life, ms)
  {
  }

  /** What a frame has for the layer above: the datagram of a frame to this very address, unless its type says ARP. */
  function HandedUp(mac: EthernetAddress, frame: Frame): seq<Datagram> {
    if frame.dst == mac && frame.etype != 0x806 && frame.payload.Internet? then [frame.payload.datagram] else []
  }

  lemma HandsUpIff(n: Interface, frame: Frame, d: Datagram)
    ensures n.RecvFrame(frame).1 == Some(d) <==>
              frame.dst == n.mac && frame.etype != 0x806 && frame.payload == Internet(d)
  {
  }

  lemma HandsUp(n: Interface, frame: Frame)
    ensures HandedUp(n.mac, frame) == if n.RecvFrame(frame).1.Some? then [n.RecvFrame(frame).1.value] else []
  {
  }

  // ----- What every reachable interface satisfies -----

  ghost predicate Cached(n: Interface, ip: uint32) {
    exists j :: 0 <= j < |n.cache| && n.cache[j].ip == ip
  }

  ghost predicate CachedBeyond(n: Interface, ip: uint32, time: nat) {
    exists j :: 0 <= j < |n.cache| && n.cache[j].ip == ip && n.cache[j].left > time
  }

  /** Each address is resolved, awaited or unknown; a lifetime belongs to an awaited address, or to one
      that will stay resolved for longer than the lifetime runs. */
  ghost predicate Consistent(n: Interface) {
    && DistinctAddresses(n.cache)
    && (forall j :: 0 <= j < |n.cache| ==> n.cache[j].ip !in n.waiting && 0 < n.cache[j].left <= CACHE_TIME)
    && (forall ip :: ip in n.waiting ==> ip in n.life)
    && (forall ip :: ip in n.life ==>
          0 < n.life[ip] <= REQUEST_TIME && (ip in n.waiting || CachedBeyond(n, ip, n.life[ip])))
  }

  lemma SendConsistent(n: Interface, d: Datagram, nextHop: uint32)
    requires Consistent(n)
    ensures Consistent(n.SendDatagram(d, nextHop))
  {
    var n' := n.SendDatagram(d, nextHop);
    forall ip | ip in n'.life && ip !in n'.waiting ensures CachedBeyond(n', ip, n'.life[ip]) {
      assert CachedBeyond(n, ip, n.life[ip]);
    }
  }

  lemma LearnConsistent(n: Interface, m: ArpMessage)
    requires Consistent(n) && !Cached(n, m.senderIp)
    ensures var n' := Learn(n, m).(waiting := n.waiting - {m.senderIp});
            Consistent(n') && n'.cache[|n.cache|] == Mapping(m.senderIp, m.senderMac, CACHE_TIME)
  {
    var n' := Learn(n, m).(waiting := n.waiting - {m.senderIp});
    assert forall j :: 0 <= j < |n.cache| ==> n'.cache[j] == n.cache[j];
    forall ip | ip in n'.life && ip !in n'.waiting ensures CachedBeyond(n', ip, n'.life[ip]) {
      if ip == m.senderIp {
        assert n'.cache[|n.cache|].left > n'.life[ip];
      } else {
        assert CachedBeyond(n, ip, n.life[ip]);
        var j :| 0 <= j < |n.cache| && n.cache[j].ip == ip && n.cache[j].left > n.life[ip];
        assert n'.cache[j] == n.cache[j];
      }
    }
  }

  lemma WaitingIsNotCached(n: Interface, ip: uint32)
    requires Consistent(n) && ip in n.waiting
    ensures !Cached(n, ip)
  {
  }

  lemma ResolveConsistent(n: Interface, m: ArpMessage)
    requires Consistent(n) && m.senderIp in n.waiting
    ensures Consistent(Resolve(n, m))
  {
    WaitingIsNotCached(n, m.senderIp);
    LearnConsistent(n, m);
    SendConsistent(Learn(n, m).(waiting := n.waiting - {m.senderIp}), n.waiting[m.senderIp], m.senderIp);
  }

  lemma LearnFromRequestConsistent(n: Interface, m: ArpMessage)
    requires Consistent(n)
    ensures Consistent(LearnFromRequest(n, m))
  {
    if m.senderIp in n.waiting {
      ResolveConsistent(n, m);
    } else if FindMapping(n.cache, m.senderIp) == |n.cache| {
      LearnConsistent(n, m);
      assert n.waiting - {m.senderIp} == n.waiting;
    }
  }

  lemma FramesDoNotMatter(n: Interface, n': Interface)
    requires Consistent(n) && n' == n.(framesOut := n'.framesOut)
    ensures Consistent(n')
  {
    forall ip | ip in n'.life && ip !in n'.waiting ensures CachedBeyond(n', ip, n'.life[ip]) {
      assert CachedBeyond(n, ip, n.life[ip]);
    }
  }

  lemma RecvConsistent(n: Interface, frame: Frame)
    requires Consistent(n)
    ensures Consistent(n.RecvFrame(frame).0)
  {
    if frame.payload.Arp? {
      var m := frame.payload.message;
      if m.senderIp in n.waiting { ResolveConsistent(n, m); }
      LearnFromRequestConsistent(n, m);
      FramesDoNotMatter(LearnFromRequest(n, m), AnswerRequest(LearnFromRequest(n, m), m));
    }
  }

  function Older(m: Mapping, ms: nat): Mapping {
    m.(left := m.left + ms)
  }

  /** What is left in the cache has aged by exactly the time passed. */
  lemma {:induction false} AgedFrom(cache: seq<Mapping>, ms: nat, m: Mapping)
    requires m in AgeCache(cache, ms)
    ensures Older(m, ms) in cache && m.left > 0
    decreases |cache|
  {
    var front := cache[..|cache| - 1];
    if m in AgeCache(front, ms) {
      AgedFrom(front, ms, m);
    }
  }

  /** And what has time left stays. */
  lemma {:induction false} AgedTo(cache: seq<Mapping>, ms: nat, m: Mapping)
    requires m in cache && m.left > ms
    ensures m.(left := m.left - ms) in AgeCache(cache, ms)
    decreases |cache|
  {
    var front := cache[..|cache| - 1];
    if m in front { AgedTo(front, ms, m); }
  }

  ghost predicate DistinctAddresses(cache: seq<Mapping>) {
    forall i, j :: 0 <= i < j < |cache| ==> cache[i].ip != cache[j].ip
  }

  lemma {:induction false} AgeCacheUnique(cache: seq<Mapping>, ms: nat)
    requires DistinctAddresses(cache)
    ensures DistinctAddresses(AgeCache(cache, ms))
    decreases |cache|
  {
    if cache != [] {
      var front := cache[..|cache| - 1];
      AgeCacheUnique(front, ms);
      var rest := AgeCache(front, ms);
      forall i | 0 <= i < |rest| ensures rest[i].ip != cache[|cache| - 1].ip {
        AgedFrom(front, ms, rest[i]);
        var j :| 0 <= j < |front| && front[j] == Older(rest[i], ms);
        assert cache[j] == front[j];
      }
    }
  }

  lemma AgedBeyond(n: Interface, ip: uint32, time: nat, ms: nat)
    requires CachedBeyond(n, ip, time) && time > ms
    ensures CachedBeyond(n.Tick(ms), ip, time - ms)
  {
    var j :| 0 <= j < |n.cache| && n.cache[j].ip == ip && n.cache[j].left > time;
    var m := n.cache[j];
    assert m in n.cache;
    AgedTo(n.cache, ms, m);
    var cache' := n.Tick(ms).cache;
    var k :| 0 <= k < |cache'| && cache'[k] == m.(left := m.left - ms);
  }

  lemma AgedEntries(n: Interface, ms: nat)
    requires Consistent(n)
    ensures forall j :: 0 <= j < |n.Tick(ms).cache| ==>
              n.Tick(ms).cache[j].ip !in n.Tick(ms).waiting && 0 < n.Tick(ms).cache[j].left <= CACHE_TIME
  {
    var cache' := n.Tick(ms).cache;
    forall j | 0 <= j < |cache'| ensures cache'[j].ip !in n.Tick(ms).waiting && 0 < cache'[j].left <= CACHE_TIME {
      AgedFrom(n.cache, ms, cache'[j]);
      var k :| 0 <= k < |n.cache| && n.cache[k] == Older(cache'[j], ms);
    }
  }

  lemma TickConsistent(n: Interface, ms: nat)
    requires Consistent(n)
    ensures Consistent(n.Tick(ms))
  {
    var n' := n.Tick(ms);
    AgeCacheUnique(n.cache, ms);
    AgedEntries(n, ms);
    forall ip | ip in n'.life && ip !in n'.waiting ensures CachedBeyond(n', ip, n'.life[ip]) {
      AgedBeyond(n, ip, n.life[ip], ms);
    }
  }

  // ----- The object -----

  class NetworkInterface {
    const mac: EthernetAddress
    const ip: uint32
    var framesOut: seq<Frame>
    var cache: seq<Mapping>
    var waiting: map<uint32, Datagram>
    var life: map<uint32, nat>

    function View(): Interface
      reads this
    {
      Interface(mac, ip, framesOut, cache, waiting, life)
    }

    constructor (mac: EthernetAddress, ip: uint32)
      ensures View() == NewInterface(mac, ip)
    {
      this.mac, this.ip := mac, ip;
      framesOut, cache, waiting, life := [], [], map[], map[];
    }

    method SendDatagram(d: Datagram, nextHop: uint32)
      modifies this
      ensures View() == old(View()).SendDatagram(d, nextHop)
    {
      var it := 0;
      while it < |cache| && cache[it].ip != nextHop
        invariant it <= |cache|
        invariant forall j :: 0 <= j < it ==> cache[j].ip != nextHop
      {
        it := it + 1;
      }
      assert it == FindMapping(cache, nextHop);
      if it < |cache| {
        framesOut := framesOut + [Frame(cache[it].mac, mac, TYPE_IPV4, Internet(d))];
      } else {
        if nextHop in waiting {
          return;
        }
        var message := ArpMessage(Request, mac, ip, ETHERNET_UNKNOWN, nextHop);
        framesOut := framesOut + [Frame(ETHERNET_BROADCAST, mac, TYPE_ARP, Arp(message))];
        waiting := waiting[nextHop := d];
        life := life[nextHop := REQUEST_TIME];
      }
    }

    /** The awaited answer: learn, take the datagram out of the queue, then send it. */
    method ResolveWaiting(m: ArpMessage)
      requires m.senderIp in waiting
      modifies this
      ensures View() == Resolve(old(View()), m)
    {
      cache := cache + [Mapping(m.senderIp, m.senderMac, CACHE_TIME)];
      var d := waiting[m.senderIp];
      waiting := waiting - {m.senderIp};
      SendDatagram(d, m.senderIp);
    }

    method RecvFrame(frame: Frame) returns (received: Option<Datagram>)
      modifies this
      ensures (View(), received) == old(View()).RecvFrame(frame)
    {
      if !(frame.dst == mac || frame.dst == ETHERNET_BROADCAST) {
        return None;
      }
      if frame.dst == mac {
        if frame.etype == TYPE_ARP {
          if frame.payload.Arp? && frame.payload.message.opcode == Reply {
            if frame.payload.message.senderIp in waiting {
              ResolveWaiting(frame.payload.message);
            }
          }
          return None;
        }
        return if frame.payload.Internet? then Some(frame.payload.datagram) else None;
      }
      if frame.etype == TYPE_IPV4 {
        return None;
      }
      if frame.payload.Arp? && frame.payload.message.opcode == Request {
        RecvRequest(frame.payload.message);
      }
      return None;
    }

    method RecvRequest(m: ArpMessage)
      modifies this
      ensures View() == AnswerRequest(LearnFromRequest(old(View()), m), m)
    {
      if m.senderIp in waiting {
        ResolveWaiting(m);
      } else {
        var li := 0;
        while li < |cache| && cache[li].ip != m.senderIp
          invariant li <= |cache|
          invariant forall j :: 0 <= j < li ==> cache[j].ip != m.senderIp
        {
          li := li + 1;
        }
        if li == |cache| {
          cache := cache + [Mapping(m.senderIp, m.senderMac, CACHE_TIME)];
        }
      }
      if m.targetIp == ip {
        framesOut := framesOut + [ReplyFrame(mac, ip, m)];
      }
    }

    method Tick(ms: nat)
      modifies this
      ensures View() == old(View()).Tick(ms)
    {
      AgeMappings(ms);
      AgeRequests(ms);
    }

    method AgeMappings(ms: nat)
      modifies this`cache
      ensures cache == AgeCache(old(cache), ms)
    {
      hide AgeCache;
      ghost var was, aged, rest := cache, [], cache;
      var it := 0;
      while it < |cache|
        invariant it == |aged| && cache == aged + rest
        invariant AgeCache(was, ms) == aged + AgeCache(rest, ms)
        decreases |rest|
      {
        AgeStep(aged, rest, ms);
        var left := if cache[it].left > ms then cache[it].left - ms else 0;
        if left == 0 {
          cache := cache[..it] + cache[it + 1..];
        } else {
          cache := cache[it := cache[it].(left := left)];
          it := it + 1;
        }
        aged := aged + AgeOne(rest[0], ms);
        rest := rest[1..];
      }
      NothingToAge(ms);
    }

    /** The entries are visited in no particular order. */
    method AgeRequests(ms: nat)
      modifies this`waiting, this`life
      ensures life == AgeLife(old(life), ms) && waiting == StillWaiting(old(waiting), old(life), ms)
    {
      hide AgeLife, StillWaiting;
      ghost var lifeWas, waitingWas := life, waiting;
      var todo := life.Keys;
      while todo != {}
        invariant todo <= lifeWas.Keys
        invariant forall k :: k in todo ==> k in life && life[k] == lifeWas[k]
        invariant forall k :: k !in todo ==> (k in life <==> k in lifeWas && lifeWas[k] > ms)
        invariant forall k :: k !in todo && k in life ==> life[k] == lifeWas[k] - ms
        invariant forall k :: k in waiting <==> k in waitingWas && (k in todo || !(k in lifeWas && lifeWas[k] <= ms))
        invariant forall k :: k in waiting ==> waiting[k] == waitingWas[k]
        decreases |todo|
      {
        var li :| li in todo;
        todo := todo - {li};
        var left := if life[li] > ms then life[li] - ms else 0;
        if left == 0 {
          waiting := waiting - {li};
          life := life - {li};
        } else {
          life := life[li := left];
        }
      }
      AgedIs(lifeWas, waitingWas, ms, life, waiting);
    }
  }
}
