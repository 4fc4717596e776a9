/** TCP segments carried in IPv4 datagrams: wrapping, unwrapping, and the way over the wire. */
module TcpOverIp {
  import opened Base
  import opened NetParsers
  import opened InternetChecksums
  import opened TcpSegments
  import Ipv4
  import TcpCodec

  const PROTO_TCP: byte := 6

  datatype Adapter = Adapter(
    source: uint32, sourcePort: uint16, destination: uint32, destinationPort: uint16, listening: bool)
  {
    /** The segment with the connection's ports. */
    function Addressed(seg: TcpSegment): TcpSegment {
      seg.(header := seg.header.(sport := sourcePort, dport := destinationPort))
    }

    /** The total length is cut to sixteen bits. */
    function HeaderFor(seg: TcpSegment): Ipv4.Ipv4Header {
      Ipv4.DEFAULT_HEADER.(src := source, dst := destination,
                           len := (Ipv4.DEFAULT_HEADER.hlen * 4 + seg.header.doff * 4 + |seg.payload|) % U16)
    }

    function Wrap(seg: TcpSegment): Option<Ipv4.Datagram> {
      var h := HeaderFor(seg);
      var text := TcpCodec.SerializeSegment(Addressed(seg), h.PseudoChecksum());
      if text.Some? then Some(Ipv4.Datagram(h, text.value)) else None
    }

    /** A listening adapter binds itself to the peer that the first SYN comes from. */
    function Unwrap(d: Ipv4.Datagram): (Adapter, Option<TcpSegment>) {
      if !listening && d.header.dst != source then (this, None)
      else if !listening && d.header.src != destination then (this, None)
      else if d.header.proto != PROTO_TCP then (this, None)
      else
        var (seg, result) := TcpCodec.ParseSegment(EMPTY_SEGMENT, d.payload, d.header.PseudoChecksum());
        if result != NoError then (this, None)
        else if seg.header.dport != sourcePort then (this, None)
        else if listening then
          if seg.header.syn && !seg.header.rst then
            (Adapter(d.header.dst, sourcePort, d.header.src, seg.header.sport, false), Some(seg))
          else (this, None)
        else if seg.header.sport != destinationPort then (this, None)
        else (this, Some(seg))
    }
  }

  const EMPTY_SEGMENT := TcpSegment(DEFAULT_HEADER, [])

  // ----- The way over the wire -----

  /** Segments whose text has a length that sixteen bits can hold. */
  predicate Carriable(seg: TcpSegment) {
    5 <= seg.header.doff && 4 * seg.header.doff + |seg.payload| < U16
  }

  function Stamped(a: Adapter, seg: TcpSegment): TcpSegment
    requires 5 <= seg.header.doff
  {
    var s := a.Addressed(seg);
    s.(header := s.header.(cksum := TcpCodec.SegmentChecksum(s, a.HeaderFor(seg).PseudoChecksum())))
  }

  lemma WrappedText(a: Adapter, seg: TcpSegment)
    requires 5 <= seg.header.doff
    ensures var d := a.Wrap(seg).value;
            && a.Wrap(seg).Some? && d.header == a.HeaderFor(seg)
            && |d.payload| == 4 * seg.header.doff + |seg.payload|
            && (d.header.PayloadLength() == |d.payload| <==> |d.payload| < U16)
  {
    hide TcpCodec.SegmentChecksum, Ipv4.Ipv4Header.PayloadLength, Ipv4.Ipv4Header.PseudoChecksum;
    var s, h := a.Addressed(seg), a.HeaderFor(seg);
    TcpCodec.SerializedLayout(s.header.(cksum := TcpCodec.SegmentChecksum(s, h.PseudoChecksum())), s.payload);
    AnnouncedLength(a, seg);
  }

  lemma AnnouncedLength(a: Adapter, seg: TcpSegment)
    ensures var n := 4 * seg.header.doff + |seg.payload|;
            a.HeaderFor(seg).PayloadLength() == n <==> n < U16
  {
    LengthCut(4 * seg.header.doff + |seg.payload|);
  }

  lemma LengthCut(n: nat)
    ensures ((20 + n) % U16 - 20) % U16 == n % U16
    ensures n % U16 == n <==> n < U16
  {
    var q, r := (20 + n) / U16, (20 + n) % U16;
    assert r - 20 == n - q * U16;
    assert (n - q * U16) % U16 == n % U16;
  }

  /** A segment can be put on the wire if and only if its length fits; otherwise writing the datagram fails. */
  lemma WritableIff(a: Adapter, seg: TcpSegment)
    ensures a.Wrap(seg).Some? && Ipv4.SerializeDatagram(a.Wrap(seg).value).Some? <==> Carriable(seg)
  {
    if 5 <= seg.header.doff { WrappedText(a, seg); }
  }

  /** A segment that has been wrapped, written, read and parsed. */
  function OverTheWire(a: Adapter, seg: TcpSegment, old': Ipv4.Datagram): (Ipv4.Datagram, ParseResult)
    requires Carriable(seg)
  {
    WritableIff(a, seg);
    Ipv4.ParseDatagram(old', Ipv4.SerializeDatagram(a.Wrap(seg).value).value)
  }

  /** The datagram that holds the wrapped segment, whatever its own checksum. */
  ghost predicate Holds(d: Ipv4.Datagram, a: Adapter, seg: TcpSegment) {
    && a.Wrap(seg).Some? && d.payload == a.Wrap(seg).value.payload
    && d.header == a.HeaderFor(seg).(cksum := d.header.cksum)
  }

  lemma DatagramArrives(a: Adapter, seg: TcpSegment, old': Ipv4.Datagram)
    requires Carriable(seg)
    ensures var (d, result) := OverTheWire(a, seg, old');
            result == NoError && Holds(d, a, seg)
  {
    WritableIff(a, seg);
    Ipv4.DatagramRoundTripIff(a.Wrap(seg).value, old');
  }

  lemma SegmentArrives(a: Adapter, seg: TcpSegment, d: Ipv4.Datagram)
    requires Carriable(seg) && seg.header.doff < 16 && Holds(d, a, seg)
    ensures TcpCodec.ParseSegment(EMPTY_SEGMENT, d.payload, d.header.PseudoChecksum()) == (Stamped(a, seg), NoError)
  {
    hide Adapter.HeaderFor;
    var pseudo := a.HeaderFor(seg).PseudoChecksum();
    assert d.header.PseudoChecksum() == pseudo;
    Ipv4.PseudoChecksumBound(a.HeaderFor(seg));
    TcpCodec.SegmentRoundTrip(a.Addressed(seg), pseudo, EMPTY_SEGMENT);
  }

  lemma StampedFields(a: Adapter, seg: TcpSegment)
    requires 5 <= seg.header.doff
    ensures var h := Stamped(a, seg).header;
            && h.sport == a.sourcePort && h.dport == a.destinationPort
            && h.syn == seg.header.syn && h.rst == seg.header.rst
  {
  }

  lemma UnwrapHeld(a: Adapter, b: Adapter, seg: TcpSegment, d: Ipv4.Datagram)
    requires d.header.proto == PROTO_TCP && d.header.src == a.source && d.header.dst == a.destination
    requires TcpCodec.ParseSegment(EMPTY_SEGMENT, d.payload, d.header.PseudoChecksum()) == (seg, NoError)
    requires seg.header.sport == a.sourcePort && seg.header.dport == a.destinationPort
    ensures var peer := Adapter(a.destination, a.destinationPort, a.source, a.sourcePort, false);
            && (b == peer ==> b.Unwrap(d) == (b, Some(seg)))
            && (b.listening ==>
                  if seg.header.syn && !seg.header.rst && a.destinationPort == b.sourcePort
                  then b.Unwrap(d) == (peer, Some(seg)) else b.Unwrap(d) == (b, None))
  {
  }

  /** From adapter to adapter: what one wraps, the other unwraps, over the bytes of the datagram, with the
      ports of the connection and the checksum filled in and nothing else changed. */
  lemma CarriedRoundTrip(a: Adapter, b: Adapter, seg: TcpSegment, old': Ipv4.Datagram)
    requires Carriable(seg) && seg.header.doff < 16
    requires b == Adapter(a.destination, a.destinationPort, a.source, a.sourcePort, false)
    ensures OverTheWire(a, seg, old').1 == NoError
    ensures b.Unwrap(OverTheWire(a, seg, old').0) == (b, Some(Stamped(a, seg)))
  {
    DatagramArrives(a, seg, old');
    var d := OverTheWire(a, seg, old').0;
    SegmentArrives(a, seg, d);
    StampedFields(a, seg);
    UnwrapHeld(a, b, Stamped(a, seg), d);
  }

  /** A listening adapter takes the segment if and only if it is a SYN without RST to its port, and then it is
      the other end of the connection. */
  lemma ListenerTakesIff(a: Adapter, b: Adapter, seg: TcpSegment, old': Ipv4.Datagram)
    requires Carriable(seg) && seg.header.doff < 16 && b.listening
    ensures b.Unwrap(OverTheWire(a, seg, old').0) ==
            if seg.header.syn && !seg.header.rst && a.destinationPort == b.sourcePort then
              (Adapter(a.destination, a.destinationPort, a.source, a.sourcePort, false), Some(Stamped(a, seg)))
            else (b, None)
  {
    DatagramArrives(a, seg, old');
    var d := OverTheWire(a, seg, old').0;
    SegmentArrives(a, seg, d);
    StampedFields(a, seg);
    UnwrapHeld(a, b, Stamped(a, seg), d);
  }

  // ----- What an adapter takes, and what it puts on the wire, byte by byte -----

  /** The payload of a datagram is a TCP segment: the protocol says so, the pseudo-header and the payload verify as
      one text, and the header and the options it announces are there. */
  predicate HoldsSegment(d: Ipv4.Datagram) {
    var text := d.payload;
    && d.header.proto == 6
    && Checksum(0, false).Add(Ipv4.PseudoHeader(d.header) + text).Value() == 0
    && |text| >= 20 && (text[12] / 16 < 5 || 4 * (text[12] / 16) <= |text|)
  }

  /** The options, if any, are skipped. */
  function SegmentIn(text: seq<byte>): TcpSegment
    requires |text| >= 20 && (text[12] / 16 < 5 || 4 * (text[12] / 16) <= |text|)
  {
    TcpSegment(TcpCodec.HeaderAt(text), text[Max(20, 4 * (text[12] / 16))..])
  }

  lemma HeldSegment(d: Ipv4.Datagram)
    requires d.header.proto == 6
    ensures var (seg, result) := TcpCodec.ParseSegment(EMPTY_SEGMENT, d.payload, d.header.PseudoChecksum());
            (result == NoError <==> HoldsSegment(d)) && (HoldsSegment(d) ==> seg == SegmentIn(d.payload))
  {
    hide Checksum.Add, Checksum.Value, Ipv4.Ipv4Header.PseudoChecksum, TcpCodec.ParseHeader, TcpCodec.HeaderAt,
         Ipv4.PseudoHeader;
    var text, pseudo := d.payload, d.header.PseudoChecksum();
    TcpCodec.ParseAcceptsIff(EMPTY_SEGMENT, text, pseudo);
    Ipv4.PseudoChecksumSums(d.header);
    AddConcat(Checksum(0, false), Ipv4.PseudoHeader(d.header), text);
    if HoldsSegment(d) {
      TcpCodec.FieldsParsed(text);
      SkippedTo(text);
    }
  }

  lemma SkippedTo(text: seq<byte>)
    requires |text| >= 20 && (text[12] / 16 < 5 || 4 * (text[12] / 16) <= |text|)
    ensures TcpCodec.SkipOptions(TcpCodec.HeaderAt(text), Parser(text[20..], NoError)).rest.buffer ==
              text[Max(20, 4 * (text[12] / 16))..]
  {
  }

  /** A connected adapter takes a datagram if and only if it comes from its peer, is meant for itself, and holds a
      segment between their two ports; otherwise it takes nothing. It stays as it is. */
  lemma ConnectedTakesIff(a: Adapter, d: Ipv4.Datagram)
    requires !a.listening
    ensures a.Unwrap(d) ==
      if d.header.dst == a.source && d.header.src == a.destination && HoldsSegment(d)
         && Two(d.payload, 0) == a.destinationPort && Two(d.payload, 2) == a.sourcePort
      then (a, Some(SegmentIn(d.payload))) else (a, None)
  {
    hide HoldsSegment, TcpCodec.ParseSegment, Ipv4.Ipv4Header.PseudoChecksum, Two, SegmentIn;
    if d.header.proto == 6 { HeldSegment(d); }
    if HoldsSegment(d) { PortsIn(d); }
  }

  lemma PortsIn(d: Ipv4.Datagram)
    requires HoldsSegment(d)
    ensures |d.payload| >= 20 && d.header.proto == 6
    ensures var h := SegmentIn(d.payload).header;
            && h.sport == Two(d.payload, 0) && h.dport == Two(d.payload, 2)
            && h.syn == (d.payload[13] / 2 % 2 == 1) && h.rst == (d.payload[13] / 4 % 2 == 1)
  {
  }

  /** A listening one takes a SYN without RST to its port, from anyone to any address, and is bound by it. */
  lemma ListenerBindsIff(a: Adapter, d: Ipv4.Datagram)
    requires a.listening
    ensures a.Unwrap(d) ==
      if HoldsSegment(d) && Two(d.payload, 2) == a.sourcePort
         && d.payload[13] / 2 % 2 == 1 && d.payload[13] / 4 % 2 == 0
      then (Adapter(d.header.dst, a.sourcePort, d.header.src, Two(d.payload, 0), false), Some(SegmentIn(d.payload)))
      else (a, None)
  {
    hide HoldsSegment, TcpCodec.ParseSegment, Ipv4.Ipv4Header.PseudoChecksum, Two, SegmentIn;
    if d.header.proto == 6 { HeldSegment(d); }
    if HoldsSegment(d) { PortsIn(d); }
  }

  /** What goes on the wire verifies behind the addresses, the protocol and the length of the segment. */
  lemma CarriedTextVerifies(a: Adapter, seg: TcpSegment)
    requires Carriable(seg) && seg.header.doff < 16
    ensures var text := a.Wrap(seg).value.payload;
            a.Wrap(seg).Some? && |text| < U16 &&
            Checksum(0, false).Add(Unparse(a.source, 4) + Unparse(a.destination, 4) + [0, 6] + Unparse(|text|, 2)
                                   + text).Value() == 0
  {
    hide TcpCodec.ParseSegment, Ipv4.Ipv4Header.PseudoChecksum, TcpCodec.SerializeSegment, Checksum.Add, Unparse;
    WrappedText(a, seg);
    var d := a.Wrap(seg).value;
    SegmentArrives(a, seg, d);
    HeldSegment(d);
  }

  // ----- The object -----

  class TCPOverIPv4Adapter {
    var source: uint32
    var sourcePort: uint16
    var destination: uint32
    var destinationPort: uint16
    var listening: bool

    function View(): Adapter
      reads this
    {
      Adapter(source, sourcePort, destination, destinationPort, listening)
    }

    constructor (source: uint32, sourcePort: uint16, destination: uint32, destinationPort: uint16)
      ensures View() == Adapter(source, sourcePort, destination, destinationPort, false)
    {
      this.source, this.sourcePort := source, sourcePort;
      this.destination, this.destinationPort, listening := destination, destinationPort, false;
    }

    method SetListening(l: bool)
      modifies this
      ensures View() == old(View()).(listening := l)
    {
      listening := l;
    }

    /** The segment handed in comes back with its ports set. */
    method WrapTcpInIp(seg: TcpSegment) returns (addressed: TcpSegment, d: Option<Ipv4.Datagram>)
      ensures addressed == View().Addressed(seg) && d == View().Wrap(seg)
    {
      addressed := seg.(header := seg.header.(sport := sourcePort, dport := destinationPort));
      var h := Ipv4.DEFAULT_HEADER.(src := source, dst := destination);
      h := h.(len := (h.hlen * 4 + seg.header.doff * 4 + |seg.payload|) % U16);
      var text := TcpCodec.SerializeTcpSegment(addressed, h.PseudoChecksum());
      d := if text.Some? then Some(Ipv4.Datagram(h, text.value)) else None;
    }

    method UnwrapTcpInIp(d: Ipv4.Datagram) returns (taken: Option<TcpSegment>)
      modifies this
      ensures (View(), taken) == old(View()).Unwrap(d)
    {
      hide TcpCodec.ParseSegment;
      ghost var before := View();
      if !listening && d.header.dst != source {
        return None;
      }
      if !listening && d.header.src != destination {
        return None;
      }
      if d.header.proto != PROTO_TCP {
        return None;
      }
      var seg, result := TcpCodec.ParseTcpSegment(EMPTY_SEGMENT, d.payload, d.header.PseudoChecksum());
      if result != NoError {
        return None;
      }
      if seg.header.dport != sourcePort {
        return None;
      }
      if listening {
        if seg.header.syn && !seg.header.rst {
          source := d.header.dst;
          destination, destinationPort := d.header.src, seg.header.sport;
          listening := false;
        } else {
          return None;
        }
      }
      if seg.header.sport != destinationPort {
        return None;
      }
      assert before.Unwrap(d).1 == Some(seg);
      return Some(seg);
    }
  }
}
