/** IPv4 headers and datagrams as values and as bytes. */
module Ipv4 {
  import opened Base
  import opened NetParsers
  import opened InternetChecksums

  const LENGTH := 20

  datatype Ipv4Header = Ipv4Header(
    ver: byte, hlen: byte, tos: byte, len: uint16, id: uint16, df: bool, mf: bool, offset: uint16,
    ttl: byte, proto: byte, cksum: uint16, src: uint32, dst: uint32)
  {
    /** In unsigned 16-bit arithmetic. */
    function PayloadLength(): uint16 {
      (len - 4 * hlen) % U16
    }

    /** The pseudo-header's share of the TCP checksum. */
    function PseudoChecksum(): uint32 {
      src / U16 + src % U16 + dst / U16 + dst % U16 + proto + PayloadLength()
    }
  }

  datatype Datagram = Datagram(header: Ipv4Header, payload: seq<byte>)

  const DEFAULT_HEADER := Ipv4Header(4, 5, 0, 0, 0, true, false, 0, 128, 6, 0, 0, 0)

  /** The pseudo-header adds five 16-bit words and a byte at most. */
  lemma PseudoChecksumBound(h: Ipv4Header)
    ensures h.PseudoChecksum() <= 5 * 0xFFFF + 0xFF
  {
  }

  /** The twelve bytes that a TCP checksum covers besides the segment (RFC 793, section 3.1). */
  function PseudoHeader(h: Ipv4Header): seq<byte> {
    Unparse(h.src, 4) + Unparse(h.dst, 4) + [0, h.proto] + Unparse((h.len - 4 * h.hlen) % U16, 2)
  }

  lemma SumOfAddress(a: uint32)
    ensures WordSum(Unparse(a, 4), false) == a / U16 + a % U16
  {
    var high, low := Unparse(a / U16, 2), Unparse(a % U16, 2);
    UnparsedWord(a / U16);
    UnparsedWord(a % U16);
    assert Unparse(a, 4) == high + low by {
      assert a / 0x100 / 0x100 == a / U16 && a / 0x100 % 0x100 == a % U16 / 0x100 && a % 0x100 == a % U16 % 0x100;
    }
    WordSumConcat(high, low, false);
  }

  /** The number that stands for the pseudo-header is the sum of its bytes. */
  lemma PseudoChecksumSums(h: Ipv4Header)
    ensures Checksum(0, false).Add(PseudoHeader(h)) == Checksum(h.PseudoChecksum(), false)
  {
    hide Unparse, WordSum, Checksum.Add;
    var addresses, protocol := Unparse(h.src, 4) + Unparse(h.dst, 4), [0, h.proto];
    var length := Unparse((h.len - 4 * h.hlen) % U16, 2);
    SumOfAddress(h.src);
    SumOfAddress(h.dst);
    WordOfTwoBytes(0, h.proto);
    UnparsedWord((h.len - 4 * h.hlen) % U16);
    WordSumConcat(Unparse(h.src, 4), Unparse(h.dst, 4), false);
    WordSumConcat(addresses, protocol, false);
    WordSumConcat(addresses + protocol, length, false);
    AddIsWordSum(Checksum(0, false), PseudoHeader(h));
    PseudoChecksumBound(h);
  }

  // ----- The header -----

  function FirstByte(h: Ipv4Header): byte {
    (h.ver * 16 + h.hlen % 16) % 0x100
  }

  function FragmentField(h: Ipv4Header): uint16 {
    (if h.df then 0x4000 else 0) + (if h.mf then 0x2000 else 0) + h.offset % 0x2000
  }

  function BeforeChecksum(h: Ipv4Header): (bytes: seq<byte>)
    ensures |bytes| == 10
  {
    Unparse(FirstByte(h), 1) + Unparse(h.tos, 1) + Unparse(h.len, 2) + Unparse(h.id, 2)
    + Unparse(FragmentField(h), 2) + Unparse(h.ttl, 1) + Unparse(h.proto, 1)
  }

  function AfterChecksum(h: Ipv4Header): (bytes: seq<byte>)
    requires h.hlen >= 5
    ensures |bytes| == 4 * h.hlen - 12
  {
    Unparse(h.src, 4) + Unparse(h.dst, 4) + Zeros(4 * h.hlen - LENGTH)
  }

  /** Nothing but version 4 is written, and no header below the minimum length. */
  function SerializeHeader(h: Ipv4Header): Option<seq<byte>> {
    if h.ver != 4 || 4 * h.hlen < LENGTH then None
    else Some(BeforeChecksum(h) + Unparse(h.cksum, 2) + AfterChecksum(h))
  }

  datatype ParsedHeader = ParsedHeader(header: Ipv4Header, rest: Parser, result: ParseResult)

  function ParseSizes(p0: Parser): (byte, byte, uint16, uint16, Parser) {
    var (first, p1) := TakeU8(p0);
    var (tos, p2) := TakeU8(p1);
    var (len, p3) := TakeU16(p2);
    var (id, p4) := TakeU16(p3);
    (first, tos, len, id, p4)
  }

  function ParseRouting(p4: Parser): (uint16, byte, byte, uint16, Parser) {
    var (fragment, p5) := TakeU16(p4);
    var (ttl, p6) := TakeU8(p5);
    var (proto, p7) := TakeU8(p6);
    var (cksum, p8) := TakeU16(p7);
    (fragment, ttl, proto, cksum, p8)
  }

  function ParseAddresses(p8: Parser): (uint32, uint32, Parser) {
    var (src, p9) := TakeU32(p8);
    var (dst, p10) := TakeU32(p9);
    (src, dst, p10)
  }

  /** A text too short for a header leaves the fields as they were. */
  function ParseHeader(old': Ipv4Header, p0: Parser): ParsedHeader {
    if |p0.buffer| < LENGTH then ParsedHeader(old', p0, PacketTooShort) else
    var (first, tos, len, id, p4) := ParseSizes(p0);
    var (fragment, ttl, proto, cksum, p8) := ParseRouting(p4);
    var (src, dst, p10) := ParseAddresses(p8);
    var h := Ipv4Header(first / 16, first % 16, tos, len, id, fragment / 0x4000 % 2 == 1, fragment / 0x2000 % 2 == 1,
                        fragment % 0x2000, ttl, proto, cksum, src, dst);
    CheckHeader(h, p10, p0.buffer)
  }

  function CheckHeader(h: Ipv4Header, p: Parser, original: seq<byte>): ParsedHeader {
    if |original| < 4 * h.hlen then ParsedHeader(h, p, PacketTooShort)
    else if h.ver != 4 then ParsedHeader(h, p, WrongIPVersion)
    else if h.hlen < 5 then ParsedHeader(h, p, HeaderTooShort)
    else if |original| != h.len then ParsedHeader(h, p, TruncatedPacket)
    else
      var skipped := p.RemovePrefix(h.hlen * 4 - LENGTH);
      if skipped.error != NoError then ParsedHeader(h, skipped, skipped.error)
      else if Checksum(0, false).Add(original[..4 * h.hlen]).Value() != 0 then ParsedHeader(h, skipped, BadChecksum)
      else ParsedHeader(h, skipped, NoError)
  }

  // ----- The datagram -----

  function SerializeDatagram(d: Datagram): Option<seq<byte>> {
    if |d.payload| != d.header.PayloadLength() then None else
    var blank := SerializeHeader(d.header.(cksum := 0));
    if blank.None? then None else
    var cksum := Checksum(0, false).Add(blank.value).Value();
    Some(SerializeHeader(d.header.(cksum := cksum)).value + d.payload)
  }

  /** The header parser's own verdict is not used. */
  function ParseDatagram(old': Datagram, text: seq<byte>): (Datagram, ParseResult) {
    var parsed := ParseHeader(old'.header, Parser(text, NoError));
    var d := Datagram(parsed.header, parsed.rest.buffer);
    (d, if |d.payload| != d.header.PayloadLength() then PacketTooShort else parsed.rest.error)
  }

  // ----- Reading what was written -----

  ghost predicate Layout(text: seq<byte>, h: Ipv4Header) {
    && |text| >= LENGTH
    && text[0] == FirstByte(h) && text[1] == h.tos && text[2..4] == Unparse(h.len, 2) && text[4..6] == Unparse(h.id, 2)
    && text[6..8] == Unparse(FragmentField(h), 2) && text[8] == h.ttl && text[9] == h.proto
    && text[10..12] == Unparse(h.cksum, 2) && text[12..16] == Unparse(h.src, 4) && text[16..20] == Unparse(h.dst, 4)
  }

  lemma BeforeLayout(h: Ipv4Header)
    ensures var b := BeforeChecksum(h);
            && b[0] == FirstByte(h) && b[1] == h.tos && b[2..4] == Unparse(h.len, 2) && b[4..6] == Unparse(h.id, 2)
            && b[6..8] == Unparse(FragmentField(h), 2) && b[8] == h.ttl && b[9] == h.proto
  {
    UnparseOne(FirstByte(h));
    UnparseOne(h.tos);
    UnparseOne(h.ttl);
    UnparseOne(h.proto);
  }

  lemma SerializedLayout(h: Ipv4Header, payload: seq<byte>)
    requires h.ver == 4 && 5 <= h.hlen
    ensures Layout(SerializeHeader(h).value + payload, h)
    ensures |SerializeHeader(h).value| == 4 * h.hlen
    ensures (SerializeHeader(h).value + payload)[4 * h.hlen..] == payload
    ensures (SerializeHeader(h).value + payload)[..4 * h.hlen] == SerializeHeader(h).value
    ensures SerializeHeader(h).value[0] == 64 + h.hlen % 16
    ensures forall i :: 20 <= i < 4 * h.hlen ==> SerializeHeader(h).value[i] == 0
  {
    var text, before := SerializeHeader(h).value + payload, BeforeChecksum(h);
    BeforeLayout(h);
    assert text[..10] == before;
    assert text[2..4] == before[2..4] && text[4..6] == before[4..6] && text[6..8] == before[6..8];
    assert text[10..12] == Unparse(h.cksum, 2);
    assert text[12..16] == AfterChecksum(h)[..4] == Unparse(h.src, 4);
    assert text[16..20] == AfterChecksum(h)[4..8] == Unparse(h.dst, 4);
  }

  lemma SizesFromLayout(text: seq<byte>, h: Ipv4Header)
    requires Layout(text, h)
    ensures ParseSizes(Parser(text, NoError)) == (FirstByte(h), h.tos, h.len, h.id, Parser(text[6..], NoError))
  {
    assert text[0..] == text;
    TakeU8At(text, 0);
    TakeU8At(text, 1);
    TakeU16At(text, 2, h.len);
    TakeU16At(text, 4, h.id);
  }

  lemma RoutingFromLayout(text: seq<byte>, h: Ipv4Header)
    requires Layout(text, h)
    ensures ParseRouting(Parser(text[6..], NoError))
            == (FragmentField(h), h.ttl, h.proto, h.cksum, Parser(text[12..], NoError))
  {
    TakeU16At(text, 6, FragmentField(h));
    TakeU8At(text, 8);
    TakeU8At(text, 9);
    TakeU16At(text, 10, h.cksum);
  }

  lemma AddressesFromLayout(text: seq<byte>, h: Ipv4Header)
    requires Layout(text, h)
    ensures ParseAddresses(Parser(text[12..], NoError)) == (h.src, h.dst, Parser(text[LENGTH..], NoError))
  {
    TakeU32At(text, 12, h.src);
    TakeU32At(text, 16, h.dst);
  }

  lemma ParseFromLayout(old': Ipv4Header, text: seq<byte>, h: Ipv4Header)
    requires Layout(text, h) && h.ver < 16 && h.hlen < 16 && h.offset < 0x2000
    ensures ParseHeader(old', Parser(text, NoError)) == CheckHeader(h, Parser(text[LENGTH..], NoError), text)
  {
    SizesFromLayout(text, h);
    RoutingFromLayout(text, h);
    AddressesFromLayout(text, h);
    FieldsReadBack(h);
  }

  lemma FieldsReadBack(h: Ipv4Header)
    requires h.ver < 16 && h.hlen < 16 && h.offset < 0x2000
    ensures FirstByte(h) / 16 == h.ver && FirstByte(h) % 16 == h.hlen
    ensures var f := FragmentField(h);
            (f / 0x4000 % 2 == 1) == h.df && (f / 0x2000 % 2 == 1) == h.mf && f % 0x2000 == h.offset
  {
  }

  /** The checksum is the only part of the text that depends on the checksum field. */
  lemma FilledHeaderVerifies(h: Ipv4Header, cksum: uint16)
    requires h.ver == 4 && 5 <= h.hlen < 16
    requires cksum == Checksum(0, false).Add(SerializeHeader(h.(cksum := 0)).value).Value()
    ensures Checksum(0, false).Add(SerializeHeader(h.(cksum := cksum)).value).Value() == 0
  {
    UnparsedWord(0);
    var blank, filled := h.(cksum := 0), h.(cksum := cksum);
    assert BeforeChecksum(blank) == BeforeChecksum(h) == BeforeChecksum(filled);
    assert AfterChecksum(blank) == AfterChecksum(h) == AfterChecksum(filled);
    RoomForChecksum(0, BeforeChecksum(h) + [0, 0] + AfterChecksum(h), cksum);
    FilledTextVerifiesIff(0, BeforeChecksum(h), AfterChecksum(h), cksum);
  }

  lemma CheckWellSized(h: Ipv4Header, text: seq<byte>)
    requires h.ver == 4 && 5 <= h.hlen && h.len == |text| && 4 * h.hlen <= |text|
    ensures CheckHeader(h, Parser(text[LENGTH..], NoError), text)
            == ParsedHeader(h, Parser(text[4 * h.hlen..], NoError),
                            if Checksum(0, false).Add(text[..4 * h.hlen]).Value() == 0 then NoError else BadChecksum)
  {
    assert text[LENGTH..][4 * h.hlen - LENGTH..] == text[4 * h.hlen..];
  }

  lemma DatagramFromHeader(old': Datagram, text: seq<byte>, parsed: ParsedHeader)
    requires ParseHeader(old'.header, Parser(text, NoError)) == parsed
    requires |parsed.rest.buffer| == parsed.header.PayloadLength()
    ensures ParseDatagram(old', text) == (Datagram(parsed.header, parsed.rest.buffer), parsed.rest.error)
  {
  }

  lemma PlainPayloadLength(h: Ipv4Header)
    requires 4 * h.hlen <= h.len
    ensures h.PayloadLength() == h.len - 4 * h.hlen
  {
  }

  /** The datagram parser does not insist on the header checksum: well-formed sizes are all it asks for.
      The header parser does find the error, but its verdict is dropped. */
  lemma ChecksumIsNotEnforced(old': Datagram, text: seq<byte>, h: Ipv4Header)
    requires Layout(text, h) && h.ver == 4 && 5 <= h.hlen < 16 && h.offset < 0x2000
    requires h.len == |text| && 4 * h.hlen <= |text|
    ensures ParseDatagram(old', text) == (Datagram(h, text[4 * h.hlen..]), NoError)
    ensures ParseHeader(old'.header, Parser(text, NoError)).result
            == if Checksum(0, false).Add(text[..4 * h.hlen]).Value() == 0 then NoError else BadChecksum
  {
    var verdict := if Checksum(0, false).Add(text[..4 * h.hlen]).Value() == 0 then NoError else BadChecksum;
    var parsed := ParsedHeader(h, Parser(text[4 * h.hlen..], NoError), verdict);
    assert ParseHeader(old'.header, Parser(text, NoError)) == parsed by {
      ParseFromLayout(old'.header, text, h);
      CheckWellSized(h, text);
    }
    PlainPayloadLength(h);
    DatagramFromHeader(old', text, parsed);
  }

  /** The checksum a datagram is written with. */
  function DatagramChecksum(d: Datagram): uint16
    requires d.header.ver == 4 && 5 <= d.header.hlen
  {
    Checksum(0, false).Add(SerializeHeader(d.header.(cksum := 0)).value).Value()
  }

  lemma SerializedText(d: Datagram)
    requires d.header.ver == 4 && 5 <= d.header.hlen && d.header.len == 4 * d.header.hlen + |d.payload|
    ensures SerializeDatagram(d) == Some(SerializeHeader(d.header.(cksum := DatagramChecksum(d))).value + d.payload)
  {
    assert d.header.PayloadLength() == |d.payload|;
  }

  /** A datagram that can be written comes back unchanged but for the checksum, which now verifies. */
  lemma DatagramRoundTrip(d: Datagram, old': Datagram)
    requires d.header.ver == 4 && 5 <= d.header.hlen < 16 && d.header.offset < 0x2000
    requires d.header.len == 4 * d.header.hlen + |d.payload|
    ensures SerializeDatagram(d).Some?
    ensures var text := SerializeDatagram(d).value;
            && ParseDatagram(old', text) == (d.(header := d.header.(cksum := DatagramChecksum(d))), NoError)
            && ParseHeader(old'.header, Parser(text, NoError)).result == NoError
  {
    SerializedText(d);
    var h := d.header.(cksum := DatagramChecksum(d));
    FilledHeaderVerifies(d.header, DatagramChecksum(d));
    SerializedLayout(h, d.payload);
    ChecksumIsNotEnforced(old', SerializeDatagram(d).value, h);
  }

  /** A header whose total length is not that of the text stays unread past its fixed part. */
  lemma CheckWrongLength(h: Ipv4Header, text: seq<byte>)
    requires h.ver == 4 && 5 <= h.hlen && h.len != |text| && 4 * h.hlen <= |text|
    ensures CheckHeader(h, Parser(text[LENGTH..], NoError), text)
            == ParsedHeader(h, Parser(text[LENGTH..], NoError), TruncatedPacket)
  {
  }

  lemma ParsedFieldsFit(old': Datagram, text: seq<byte>)
    requires |text| >= LENGTH
    ensures var h := ParseDatagram(old', text).0.header;
            h.hlen < 16 && h.offset < 0x2000
  {
  }

  /** Which datagrams that can be written come back: those whose header length and fragment offset fit
      their bits, and whose total length is right or that have no options, in which case the wrong total
      length, though noticed, does no harm. */
  lemma DatagramRoundTripIff(d: Datagram, old': Datagram)
    requires SerializeDatagram(d).Some?
    ensures ParseDatagram(old', SerializeDatagram(d).value)
            == (d.(header := d.header.(cksum := DatagramChecksum(d))), NoError)
            <==> d.header.hlen < 16 && d.header.offset < 0x2000
                 && (d.header.len == 4 * d.header.hlen + |d.payload| || d.header.hlen == 5)
  {
    hide ParseHeader;
    var h, text := d.header.(cksum := DatagramChecksum(d)), SerializeDatagram(d).value;
    SerializedLayout(h, d.payload);
    if h.hlen >= 16 || h.offset >= 0x2000 {
      ParsedFieldsFit(old', text);
    } else if h.len == 4 * h.hlen + |d.payload| {
      DatagramRoundTrip(d, old');
    } else {
      ParseFromLayout(old'.header, text, h);
      CheckWrongLength(h, text);
      assert |text[LENGTH..]| == 4 * h.hlen - LENGTH + |d.payload|;
      if h.hlen == 5 {
        DatagramFromHeader(old', text, ParsedHeader(h, Parser(text[LENGTH..], NoError), TruncatedPacket));
      } else {
        assert ParseDatagram(old', text).0.payload == text[LENGTH..];
      }
    }
  }

  /** The header that the first twenty bytes of a text spell out (RFC 791, section 3.1). */
  function HeaderAt(text: seq<byte>): Ipv4Header
    requires |text| >= 20
  {
    Ipv4Header(text[0] / 16, text[0] % 16, text[1], Two(text, 2), Two(text, 4), text[6] / 64 % 2 == 1,
               text[6] / 32 % 2 == 1, Two(text, 6) % 0x2000, text[8], text[9], Two(text, 10),
               Four(text, 12), Four(text, 16))
  }

  lemma FragmentBits(text: seq<byte>)
    requires |text| >= 20
    ensures Two(text, 6) / 0x4000 % 2 == text[6] / 64 % 2 && Two(text, 6) / 0x2000 % 2 == text[6] / 32 % 2
  {
    var high: nat, low: nat := text[6], text[7];
    assert Two(text, 6) == high * 0x100 + low;
    assert Two(text, 6) / 0x4000 == high / 64 && Two(text, 6) / 0x2000 == high / 32;
  }

  /** Parsing a text that is long enough reads off every field. */
  lemma FieldsParsed(old': Ipv4Header, text: seq<byte>)
    requires |text| >= LENGTH
    ensures ParseHeader(old', Parser(text, NoError)) ==
              CheckHeader(HeaderAt(text), Parser(text[LENGTH..], NoError), text)
  {
    hide TakeU8, TakeU16, TakeU32, Two, Four, CheckHeader;
    FragmentBits(text);
    assert text[0..] == text;
    TakeU8At(text, 0); TakeU8At(text, 1); TakesTwo(text, 2); TakesTwo(text, 4); TakesTwo(text, 6);
    TakeU8At(text, 8); TakeU8At(text, 9); TakesTwo(text, 10); TakesFour(text, 12); TakesFour(text, 16);
  }

  /** The header parser's verdict on every text, and what it leaves for the payload. */
  lemma HeaderVerdict(old': Ipv4Header, text: seq<byte>)
    ensures var p := ParseHeader(old', Parser(text, NoError));
            p.result ==
              if |text| < 20 || |text| < 4 * (text[0] % 16) then PacketTooShort
              else if text[0] / 16 != 4 then WrongIPVersion
              else if text[0] % 16 < 5 then HeaderTooShort
              else if |text| != Two(text, 2) then TruncatedPacket
              else if Checksum(0, false).Add(text[..4 * (text[0] % 16)]).Value() != 0 then BadChecksum
              else NoError
    ensures var p := ParseHeader(old', Parser(text, NoError));
            p.result in {BadChecksum, NoError} ==> p.rest == Parser(text[4 * (text[0] % 16)..], NoError)
  {
    hide Checksum.Add, Checksum.Value, Two, Four;
    if |text| >= LENGTH {
      FieldsParsed(old', text);
      assert 4 * (text[0] % 16) >= LENGTH && 4 * (text[0] % 16) <= |text| ==>
        text[LENGTH..][4 * (text[0] % 16) - LENGTH..] == text[4 * (text[0] % 16)..];
    }
  }

  /** What the datagram parser accepts, for every text: a text too short for a header if the header from before
      happens to announce its length; a text whose header passes the checks on version and lengths; and any
      other text whose length happens to be the announced one after the fixed part of the header. */
  lemma ParseAcceptsIff(old': Datagram, text: seq<byte>)
    ensures ParseDatagram(old', text).1 == NoError <==>
            if |text| < LENGTH then |text| == old'.header.PayloadLength()
            else
              var hlen, len := text[0] % 16, Two(text, 2);
              || (text[0] / 16 == 4 && 5 <= hlen && 4 * hlen <= |text| && |text| == len)
              || |text| - LENGTH == (len - 4 * hlen) % U16
  {
    hide Four, Two;
    if |text| >= LENGTH {
      var h := HeaderAt(text);
      FieldsParsed(old'.header, text);
      if h.ver == 4 && 5 <= h.hlen && 4 * h.hlen <= |text| && h.len == |text| {
        CheckWellSized(h, text);
        PlainPayloadLength(h);
      }
    }
  }

  // ----- The operations -----

  method ParseIpv4Header(before: Ipv4Header, p: NetParser) returns (h: Ipv4Header, result: ParseResult)
    modifies p
    ensures ParsedHeader(h, p.View(), result) == ParseHeader(before, old(p.View()))
  {
    var original := p.buffer;
    var size := |original|;
    if size < LENGTH {
      return before, PacketTooShort;
    }
    ghost var p0 := p.View();
    var first := ReadU8(p);
    var tos := ReadU8(p);
    var len := ReadU16(p);
    var id := ReadU16(p);
    ghost var p4 := p.View();
    assert ParseSizes(p0) == (first, tos, len, id, p4);
    var fragment := ReadU16(p);
    var ttl := ReadU8(p);
    var proto := ReadU8(p);
    var cksum := ReadU16(p);
    ghost var p8 := p.View();
    assert ParseRouting(p4) == (fragment, ttl, proto, cksum, p8);
    var src := ReadU32(p);
    var dst := ReadU32(p);
    assert ParseAddresses(p8) == (src, dst, p.View());
    h := Ipv4Header(first / 16, first % 16, tos, len, id, fragment / 0x4000 % 2 == 1, fragment / 0x2000 % 2 == 1,
                    fragment % 0x2000, ttl, proto, cksum, src, dst);
    assert ParseHeader(before, p0) == CheckHeader(h, p.View(), original);
    result := VerifyHeader(h, p, original);
  }

  method VerifyHeader(h: Ipv4Header, p: NetParser, original: seq<byte>) returns (result: ParseResult)
    modifies p
    ensures ParsedHeader(h, p.View(), result) == CheckHeader(h, old(p.View()), original)
  {
    if |original| < 4 * h.hlen {
      return PacketTooShort;
    }
    if h.ver != 4 {
      return WrongIPVersion;
    }
    if h.hlen < 5 {
      return HeaderTooShort;
    }
    if |original| != h.len {
      return TruncatedPacket;
    }
    p.RemovePrefix(h.hlen * 4 - LENGTH);
    if p.error != NoError {
      return p.error;
    }
    var check := new InternetChecksum(0);
    check.Add(original[..4 * h.hlen]);
    var val := check.Value();
    if val != 0 {
      return BadChecksum;
    }
    return NoError;
  }

  method SerializeIpv4Header(h: Ipv4Header) returns (text: Option<seq<byte>>)
    ensures text == SerializeHeader(h)
  {
    if h.ver != 4 {
      return None;
    }
    if 4 * h.hlen < LENGTH {
      return None;
    }
    var ret := UnparseInt([], FirstByte(h), 1);
    assert ret == Unparse(FirstByte(h), 1);
    ret := UnparseInt(ret, h.tos, 1);
    ret := UnparseInt(ret, h.len, 2);
    ret := UnparseInt(ret, h.id, 2);
    ret := UnparseInt(ret, FragmentField(h), 2);
    ret := UnparseInt(ret, h.ttl, 1);
    ret := UnparseInt(ret, h.proto, 1);
    assert ret == BeforeChecksum(h);
    ret := UnparseInt(ret, h.cksum, 2);
    ghost var front := ret;
    ret := UnparseInt(ret, h.src, 4);
    ret := UnparseInt(ret, h.dst, 4);
    ret := ret + Zeros(4 * h.hlen - |ret|);
    assert ret == front + AfterChecksum(h);
    text := Some(ret);
  }

  method ParseIpv4Datagram(before: Datagram, text: seq<byte>) returns (d: Datagram, result: ParseResult)
    ensures (d, result) == ParseDatagram(before, text)
  {
    var p := new NetParser(text);
    var header, ignored := ParseIpv4Header(before.header, p);
    d := Datagram(header, p.buffer);
    if |d.payload| != d.header.PayloadLength() {
      return d, PacketTooShort;
    }
    result := p.error;
  }

  method SerializeIpv4Datagram(d: Datagram) returns (text: Option<seq<byte>>)
    ensures text == SerializeDatagram(d)
  {
    if |d.payload| != d.header.PayloadLength() {
      return None;
    }
    var header := d.header.(cksum := 0);
    var blank := SerializeIpv4Header(header);
    if blank.None? {
      return None;
    }
    var check := new InternetChecksum(0);
    check.Add(blank.value);
    var val := check.Value();
    header := header.(cksum := val);
    var filled := SerializeIpv4Header(header);
    text := Some(filled.value + d.payload);
  }
}
