/** The router: longest-prefix match by bit masks, hop limits, and queues routed in order. */
module Routers {
  import opened Base
  import opened Ipv4
  import opened NetworkInterfaces

  datatype Route = Route(prefix: uint32, length: byte, nextHop: Option<uint32>, interfaceNum: nat)

  const NO_ROUTE := Route(0, 33, None, 0)

  // ----- Bit masks -----

  /** Bitwise conjunction of two numbers. */
  function And(x: nat, y: nat): nat {
    if x == 0 || y == 0 then 0
    else 2 * And(x / 2, y / 2) + (if x % 2 == 1 && y % 2 == 1 then 1 else 0)
  }

  /** All ones shifted left, in 32 bits; a zero length is a special case, because shifting by 32 is not. */
  function Mask(length: byte): uint32
    requires length <= 32
  {
    if length == 0 then 0 else 0xFFFF_FFFF * Pow2(32 - length) % U32
  }

  predicate Matches(route: Route, dst: uint32)
    requires route.length <= 32
  {
    And(dst, Mask(route.length)) == And(route.prefix, Mask(route.length))
  }

  /** The first `length` bits agree. */
  predicate SharesPrefix(route: Route, dst: uint32)
    requires route.length <= 32
  {
    dst / Pow2(32 - route.length) == route.prefix / Pow2(32 - route.length)
  }

  lemma {:induction false} AndWithOnes(x: nat, n: nat)
    requires x < Pow2(n)
    ensures And(x, Pow2(n) - 1) == x
    decreases n
  {
    if x != 0 {
      AndWithOnes(x / 2, n - 1);
      assert (Pow2(n) - 1) / 2 == Pow2(n - 1) - 1;
    }
  }

  lemma HalveRemainder(x: nat, p: nat)
    requires p >= 1
    ensures x % (2 * p) == 2 * (x / 2 % p) + x % 2
  {
    var h := x / 2;
    var q, r := h / p, h % p;
    assert h == q * p + r;
    assert x == q * (2 * p) + (2 * r + x % 2);
    DividesUp(x, 2 * p, q, 2 * r + x % 2);
  }

  lemma {:induction false} Pow2Grows(s: nat, n: nat)
    requires s <= n
    ensures Pow2(s) <= Pow2(n)
    decreases n - s
  {
    if s < n { Pow2Grows(s + 1, n); }
  }

  /** Masking with ones above zeros clears the low bits. */
  lemma {:induction false} AndWithMask(x: nat, n: nat, s: nat)
    requires s <= n && x < Pow2(n)
    ensures Pow2(s) <= Pow2(n) && And(x, Pow2(n) - Pow2(s)) == x - x % Pow2(s)
    decreases s
  {
    Pow2Grows(s, n);
    if s == 0 {
      AndWithOnes(x, n);
    } else {
      AndWithMask(x / 2, n - 1, s - 1);
      var half, low := Pow2(n - 1) - Pow2(s - 1), x / 2 % Pow2(s - 1);
      Halved(half);
      MaskStep(x, 2 * half, low);
      RemainderOf(x, s);
      Combine(And(x, 2 * half), x, 2 * low + x % 2, x % Pow2(s));
    }
  }

  lemma RemainderOf(x: nat, s: nat)
    requires s > 0
    ensures x % Pow2(s) == 2 * (x / 2 % Pow2(s - 1)) + x % 2
  {
    HalveRemainder(x, Pow2(s - 1));
  }

  lemma Combine(y: int, x: int, low: int, rest: int)
    requires y == x - low && rest == low
    ensures y == x - rest
  {
  }

  lemma Halved(n: nat)
    ensures 2 * n / 2 == n && 2 * n % 2 == 0
  {
  }

  /** The masked value, one bit further to the left. */
  lemma MaskStep(x: nat, mask: nat, low: nat)
    requires mask % 2 == 0 && And(x / 2, mask / 2) == x / 2 - low
    ensures And(x, mask) == x - (2 * low + x % 2)
  {
  }

  lemma Pow2Of32()
    ensures Pow2(32) == U32
  {
    assert Pow2(8) == 0x100;
    assert Pow2(16) == 0x1_0000 by { assert Pow2(12) == 0x1000; }
    assert Pow2(24) == 0x100_0000 by { assert Pow2(20) == 0x10_0000; }
    assert Pow2(28) == 0x1000_0000;
  }

  lemma MaskIs(length: byte)
    requires length <= 32
    ensures Pow2(32 - length) <= U32 && Mask(length) == U32 - Pow2(32 - length)
  {
    Pow2Of32();
    Pow2Grows(32 - length, 32);
    if length > 0 {
      var p := Pow2(32 - length);
      Pow2Grows(32 - length, 31);
      assert 0xFFFF_FFFF * p == (p - 1) * U32 + (U32 - p);
      DividesUp(0xFFFF_FFFF * p, U32, p - 1, U32 - p);
    }
  }

  lemma MaskedValue(x: uint32, length: byte)
    requires length <= 32
    ensures And(x, Mask(length)) == x / Pow2(32 - length) * Pow2(32 - length)
  {
    Pow2Of32();
    MaskIs(length);
    AndClearsLowBits(x, 32, 32 - length);
  }

  lemma AndClearsLowBits(x: nat, n: nat, s: nat)
    requires s <= n && x < Pow2(n)
    ensures Pow2(s) <= Pow2(n) && And(x, Pow2(n) - Pow2(s)) == x / Pow2(s) * Pow2(s)
  {
    AndWithMask(x, n, s);
    QuotientPart(x, Pow2(s));
  }

  lemma QuotientPart(x: nat, p: nat)
    requires p >= 1
    ensures x - x % p == x / p * p
  {
  }

  /** The mask test is the comparison of the leading bits, for every length from 0 to 32. */
  lemma MaskComparesPrefix(route: Route, dst: uint32)
    requires route.length <= 32
    ensures Matches(route, dst) <==> SharesPrefix(route, dst)
  {
    var p := Pow2(32 - route.length);
    MaskedValue(dst, route.length);
    MaskedValue(route.prefix, route.length);
    SameMultiple(dst / p, route.prefix / p, p);
  }

  lemma SameMultiple(a: int, b: int, p: nat)
    requires p >= 1
    ensures a * p == b * p <==> a == b
  {
    if a * p == b * p { assert (a - b) * p == 0; }
  }

  // ----- The choice of a route -----

  predicate Proper(table: seq<Route>) {
    forall i :: 0 <= i < |table| ==> table[i].length <= 32
  }

  /** The scan of the whole table: the longest length met so far, and the last route that had it. */
  function Scan(table: seq<Route>, dst: uint32): (byte, Route)
    requires Proper(table)
    decreases |table|
  {
    if table == [] then (0, NO_ROUTE) else
    var (longest, best) := Scan(table[..|table| - 1], dst);
    var route := table[|table| - 1];
    if Matches(route, dst) && route.length >= longest then (route.length, route) else (longest, best)
  }

  /** Among the routes whose prefix the address shares, the longest, and of those the one added last. */
  ghost predicate IsBest(table: seq<Route>, dst: uint32, i: nat)
    requires Proper(table)
  {
    && i < |table| && SharesPrefix(table[i], dst)
    && forall j :: 0 <= j < |table| && SharesPrefix(table[j], dst) ==>
         table[j].length < table[i].length || (table[j].length == table[i].length && j <= i)
  }

  lemma LastIsBest(table: seq<Route>, dst: uint32)
    requires Proper(table) && |table| > 0 && SharesPrefix(table[|table| - 1], dst)
    requires forall j :: 0 <= j < |table| - 1 && SharesPrefix(table[j], dst) ==>
               table[j].length <= table[|table| - 1].length
    ensures IsBest(table, dst, |table| - 1)
  {
  }

  lemma BestStays(table: seq<Route>, dst: uint32, i: nat)
    requires Proper(table) && |table| > 0 && IsBest(table[..|table| - 1], dst, i)
    requires SharesPrefix(table[|table| - 1], dst) ==> table[|table| - 1].length < table[i].length
    ensures IsBest(table, dst, i)
  {
    var front := table[..|table| - 1];
    forall j | 0 <= j < |table| && SharesPrefix(table[j], dst)
      ensures table[j].length < table[i].length || (table[j].length == table[i].length && j <= i)
    {
      if j < |front| { assert front[j] == table[j]; }
    }
  }

  /** What the scan promises: the best route and its length, or that there is none. */
  ghost predicate Found(table: seq<Route>, dst: uint32, longest: byte, best: Route)
    requires Proper(table)
  {
    if best.length > 32 then
      longest == 0 && best == NO_ROUTE && forall j :: 0 <= j < |table| ==> !SharesPrefix(table[j], dst)
    else
      longest == best.length && exists i: nat :: IsBest(table, dst, i) && best == table[i]
  }

  lemma FoundExtends(table: seq<Route>, dst: uint32, longest: byte, best: Route)
    requires Proper(table) && |table| > 0 && Found(table[..|table| - 1], dst, longest, best)
    ensures var route := table[|table| - 1];
            if SharesPrefix(route, dst) && route.length >= longest
            then Found(table, dst, route.length, route) else Found(table, dst, longest, best)
  {
    var front, route := table[..|table| - 1], table[|table| - 1];
    assert forall j :: 0 <= j < |front| ==> front[j] == table[j];
    if SharesPrefix(route, dst) && route.length >= longest {
      LastIsBest(table, dst);
    } else if best.length <= 32 {
      var i: nat :| IsBest(front, dst, i) && best == front[i];
      BestStays(table, dst, i);
    }
  }

  /** Longest-prefix match: the scan finds the best route, or none exactly when no prefix is shared. */
  lemma {:induction false} ScanFindsBest(table: seq<Route>, dst: uint32)
    requires Proper(table)
    ensures Found(table, dst, Scan(table, dst).0, Scan(table, dst).1)
    decreases |table|
  {
    if table != [] {
      var front := table[..|table| - 1];
      ScanFindsBest(front, dst);
      MaskComparesPrefix(table[|table| - 1], dst);
      FoundExtends(table, dst, Scan(front, dst).0, Scan(front, dst).1);
    }
  }

  // ----- Forwarding -----

  /** Routes lead to interfaces that exist. */
  predicate Attached(table: seq<Route>, count: nat) {
    forall i :: 0 <= i < |table| ==> table[i].interfaceNum < count
  }

  lemma {:induction false} ScanIsAttached(table: seq<Route>, dst: uint32, count: nat)
    requires Proper(table) && Attached(table, count)
    ensures Scan(table, dst).1.length <= 32 ==> Scan(table, dst).1.interfaceNum < count
    decreases |table|
  {
    if table != [] { ScanIsAttached(table[..|table| - 1], dst, count); }
  }

  predicate IsForwarded(table: seq<Route>, d: Datagram)
    requires Proper(table)
  {
    Scan(table, d.header.dst).1.length <= 32 && d.header.ttl > 1
  }

  function Hopped(d: Datagram): Datagram
    requires d.header.ttl > 1
  {
    d.(header := d.header.(ttl := d.header.ttl - 1))
  }

  /** The interfaces after one datagram: one of them is given the datagram to send, or nothing happens. */
  function Forward(table: seq<Route>, nets: seq<Interface>, d: Datagram): (nets': seq<Interface>)
    requires Proper(table) && Attached(table, |nets|)
    ensures |nets'| == |nets|
  {
    if IsForwarded(table, d) then
      var route := Scan(table, d.header.dst).1;
      ScanIsAttached(table, d.header.dst, |nets|);
      nets[route.interfaceNum := nets[route.interfaceNum].SendDatagram(Hopped(d), route.nextHop.GetOr(d.header.dst))]
    else nets
  }

  function ForwardAll(table: seq<Route>, nets: seq<Interface>, ds: seq<Datagram>): (nets': seq<Interface>)
    requires Proper(table) && Attached(table, |nets|)
    ensures |nets'| == |nets|
    decreases |ds|
  {
    if ds == [] then nets
    else Forward(table, ForwardAll(table, nets, ds[..|ds| - 1]), ds[|ds| - 1])
  }

  /** What forwarding means: a datagram is dropped exactly when it shares no prefix or its hop limit is
      used up; otherwise the interface of the best route sends it on, one hop closer to its limit. */
  lemma ForwardMeaning(table: seq<Route>, nets: seq<Interface>, d: Datagram)
    requires Proper(table) && Attached(table, |nets|)
    ensures var dst := d.header.dst;
            if d.header.ttl <= 1 || (forall j :: 0 <= j < |table| ==> !SharesPrefix(table[j], dst)) then
              Forward(table, nets, d) == nets
            else
              exists i: nat :: IsBest(table, dst, i) &&
                var route, sent := table[i], d.(header := d.header.(ttl := d.header.ttl - 1));
                var hop := if route.nextHop.Some? then route.nextHop.value else dst;
                Forward(table, nets, d) == nets[route.interfaceNum := nets[route.interfaceNum].SendDatagram(sent, hop)]
  {
    ScanFindsBest(table, d.header.dst);
    var dst, best := d.header.dst, Scan(table, d.header.dst).1;
    if best.length <= 32 {
      var i: nat :| IsBest(table, dst, i) && best == table[i];
      if d.header.ttl > 1 {
        assert Forward(table, nets, d) == nets[table[i].interfaceNum :=
          nets[table[i].interfaceNum].SendDatagram(Hopped(d), table[i].nextHop.GetOr(dst))];
      }
    }
  }

  /** The inbound queues of the first `i` interfaces, one after the other. */
  function QueuesTo(queues: seq<seq<Datagram>>, i: nat): seq<Datagram>
    requires i <= |queues|
  {
    if i == 0 then [] else QueuesTo(queues, i - 1) + queues[i - 1]
  }

  function ForwardQueues(table: seq<Route>, nets: seq<Interface>, queues: seq<seq<Datagram>>, i: nat)
    : (nets': seq<Interface>)
    requires Proper(table) && Attached(table, |nets|) && i <= |queues|
    ensures |nets'| == |nets|
  {
    if i == 0 then nets else ForwardAll(table, ForwardQueues(table, nets, queues, i - 1), queues[i - 1])
  }

  /** Queue by queue is the same as one long queue. */
  lemma {:induction false} ForwardQueuesInOrder(table: seq<Route>, nets: seq<Interface>,
                                                queues: seq<seq<Datagram>>, i: nat)
    requires Proper(table) && Attached(table, |nets|) && i <= |queues|
    ensures ForwardQueues(table, nets, queues, i) == ForwardAll(table, nets, QueuesTo(queues, i))
  {
    if i > 0 {
      ForwardQueuesInOrder(table, nets, queues, i - 1);
      ForwardAllConcat(table, nets, QueuesTo(queues, i - 1), queues[i - 1]);
    }
  }

  /** The queues once the first `i` have been emptied. */
  function Emptied(queues: seq<seq<Datagram>>, i: nat): seq<seq<Datagram>> {
    seq(|queues|, k requires 0 <= k < |queues| => if k < i then [] else queues[k])
  }

  lemma EmptiedFurther(queues: seq<seq<Datagram>>, i: nat)
    requires i < |queues|
    ensures Emptied(queues, i)[i] == queues[i]
    ensures Emptied(queues, i)[i := []] == Emptied(queues, i + 1)
  {
  }

  lemma {:induction false} ForwardAllConcat(table: seq<Route>, nets: seq<Interface>, a: seq<Datagram>, b: seq<Datagram>)
    requires Proper(table) && Attached(table, |nets|)
    ensures ForwardAll(table, ForwardAll(table, nets, a), b) == ForwardAll(table, nets, a + b)
    decreases |b|
  {
    if b == [] {
      assert a + b == a;
    } else {
      ForwardAllConcat(table, nets, a, b[..|b| - 1]);
      assert (a + b)[..|a + b| - 1] == a + b[..|b| - 1];
    }
  }

  // ----- The objects -----

  /** An interface whose received datagrams wait for the router. */
  class AsyncNetworkInterface {
    const net: NetworkInterface
    var datagramsOut: seq<Datagram>

    constructor (mac: EthernetAddress, ip: uint32)
      ensures fresh(net) && net.View() == NewInterface(mac, ip) && datagramsOut == []
    {
      net := new NetworkInterface(mac, ip);
      datagramsOut := [];
    }

    /** A datagram that the interface hands up is queued for the router. */
    method RecvFrame(frame: Frame)
      modifies this, net
      ensures net.View() == old(net.View()).RecvFrame(frame).0
      ensures datagramsOut == old(datagramsOut) + HandedUp(net.mac, frame)
    {
      var received := net.RecvFrame(frame);
      if received.Some? {
        datagramsOut := datagramsOut + [received.value];
      }
    }
  }

  class Router {
    var interfaces: seq<AsyncNetworkInterface>
    var table: seq<Route>

    ghost function NetObjects(): set<NetworkInterface>
      reads this
    {
      set i | 0 <= i < |interfaces| :: interfaces[i].net
    }

    ghost function QueueObjects(): set<AsyncNetworkInterface>
      reads this
    {
      set i | 0 <= i < |interfaces| :: interfaces[i]
    }

    ghost predicate Valid()
      reads this
    {
      forall i, j :: 0 <= i < j < |interfaces| ==>
           interfaces[i] != interfaces[j] && interfaces[i].net != interfaces[j].net
    }

    /** Every route is one that datagrams can be sent along. */
    predicate Routable()
      reads this
    {
      Proper(table) && Attached(table, |interfaces|)
    }

    ghost function Nets(): seq<Interface>
      reads this, NetObjects()
    {
      seq(|interfaces|, i requires 0 <= i < |interfaces| reads this, NetObjects() => interfaces[i].net.View())
    }

    ghost function Queues(): seq<seq<Datagram>>
      reads this, QueueObjects()
    {
      seq(|interfaces|, i requires 0 <= i < |interfaces| reads this, QueueObjects() => interfaces[i].datagramsOut)
    }

    constructor ()
      ensures Valid() && Routable() && interfaces == [] && table == []
    {
      interfaces, table := [], [];
    }

    method AddInterface(interface: AsyncNetworkInterface) returns (number: nat)
      requires Valid() && interface !in QueueObjects() && interface.net !in NetObjects()
      modifies this
      ensures Valid() && table == old(table) && (old(Routable()) ==> Routable())
      ensures number == old(|interfaces|) && interfaces == old(interfaces) + [interface]
    {
      interfaces := interfaces + [interface];
      number := |interfaces| - 1;
    }

    method AddRoute(prefix: uint32, length: byte, nextHop: Option<uint32>, interfaceNum: nat)
      requires Valid()
      modifies this
      ensures Valid() && interfaces == old(interfaces)
      ensures Routable() <==> old(Routable()) && length <= 32 && interfaceNum < |interfaces|
      ensures table == old(table) + [Route(prefix, length, nextHop, interfaceNum)]
    {
      ghost var earlier := table;
      table := table + [Route(prefix, length, nextHop, interfaceNum)];
      assert table[|earlier|].length == length && table[|earlier|].interfaceNum == interfaceNum;
      assert forall i :: 0 <= i < |earlier| ==> table[i] == earlier[i];
    }

    /** The loop over the table. */
    method FindRoute(dst: uint32) returns (best: Route)
      requires Valid() && Routable()
      ensures best == Scan(table, dst).1
    {
      var longest: byte := 0;
      best := NO_ROUTE;
      for i := 0 to |table|
        invariant (longest, best) == Scan(table[..i], dst)
      {
        var route := table[i];
        assert table[..i + 1][..i] == table[..i];
        if Matches(route, dst) {
          if route.length >= longest {
            longest := route.length;
            best := route;
          }
        }
      }
      assert table[..|table|] == table;
    }

    method RouteOneDatagram(d: Datagram)
      requires Valid() && Routable()
      modifies NetObjects()
      ensures Nets() == Forward(table, old(Nets()), d)
    {
      hide Proper, Interface.SendDatagram, Scan;
      var route := FindRoute(d.header.dst);
      if route.length > 32 {
        return;
      }
      if d.header.ttl <= 1 {
        return;
      }
      var sent := d.(header := d.header.(ttl := d.header.ttl - 1));
      ScanIsAttached(table, d.header.dst, |interfaces|);
      ghost var was := Nets();
      if route.nextHop.Some? {
        interfaces[route.interfaceNum].net.SendDatagram(sent, route.nextHop.value);
      } else {
        interfaces[route.interfaceNum].net.SendDatagram(sent, d.header.dst);
      }
      assert Nets() == was[route.interfaceNum := interfaces[route.interfaceNum].net.View()];
    }

    /** Every inbound queue is emptied, and each datagram is routed exactly once: the queues in the order of
        their interfaces, and each queue from its front. */
    method RouteAll()
      requires Valid() && Routable()
      modifies NetObjects(), QueueObjects()
      ensures Nets() == ForwardAll(table, old(Nets()), QueuesTo(old(Queues()), |interfaces|))
      ensures forall i :: 0 <= i < |interfaces| ==> Queues()[i] == []
    {
      hide ForwardAll, QueuesTo, Proper;
      ghost var nets, queues := Nets(), Queues();
      for i := 0 to |interfaces|
        invariant interfaces == old(interfaces) && table == old(table) && Valid() && Routable()
        invariant Nets() == ForwardQueues(table, nets, queues, i)
        invariant Queues() == Emptied(queues, i)
      {
        EmptiedFurther(queues, i);
        DrainQueue(i);
      }
      ForwardQueuesInOrder(table, nets, queues, |interfaces|);
    }

    /** The inner loop of `RouteAll`. */
    method DrainQueue(i: nat)
      requires Valid() && Routable() && i < |interfaces|
      modifies NetObjects(), QueueObjects()
      ensures interfaces == old(interfaces) && table == old(table)
      ensures Nets() == ForwardAll(table, old(Nets()), old(Queues())[i])
      ensures Queues() == old(Queues())[i := []]
    {
      ghost var nets, queues, done := Nets(), Queues(), 0;
      while interfaces[i].datagramsOut != []
        invariant done <= |queues[i]|
        invariant Queues() == queues[i := queues[i][done..]]
        invariant Nets() == ForwardAll(table, nets, queues[i][..done])
        decreases |queues[i]| - done
      {
        assert interfaces[i].datagramsOut == Queues()[i] == queues[i][done..];
        assert queues[i][..done + 1][..done] == queues[i][..done];
        RouteFront(i);
        done := done + 1;
      }
      assert Queues()[i] == [];
      assert queues[i][..done] == queues[i];
    }

    method RouteFront(i: nat)
      requires Valid() && Routable() && i < |interfaces| && interfaces[i].datagramsOut != []
      modifies NetObjects(), QueueObjects()
      ensures Nets() == Forward(table, old(Nets()), old(interfaces[i].datagramsOut)[0])
      ensures Queues() == old(Queues())[i := old(interfaces[i].datagramsOut)[1..]]
    {
      RouteOneDatagram(interfaces[i].datagramsOut[0]);
      interfaces[i].datagramsOut := interfaces[i].datagramsOut[1..];
    }
  }
}
