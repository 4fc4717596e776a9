/** TCP headers and segments as bytes: serialisation, parsing and the checksum over both. */
module TcpCodec {
  import opened Base
  import opened NetParsers
  import opened InternetChecksums
  import opened TcpSegments

  const LENGTH := 20

  // ----- The header -----

  function Bit(b: bool, weight: nat): nat {
    if b then weight else 0
  }

  function FlagByte(h: TcpHeader): byte {
    Bit(h.urg, 32) + Bit(h.ack, 16) + Bit(h.psh, 8) + Bit(h.rst, 4) + Bit(h.syn, 2) + Bit(h.fin, 1)
  }

  predicate HasBit(b: byte, weight: nat)
    requires weight > 0
  {
    b / weight % 2 == 1
  }

  /** The sixteen bytes in front of the checksum field; the data offset loses its high bits. */
  function BeforeChecksum(h: TcpHeader): (bytes: seq<byte>)
    ensures |bytes| == 16
  {
    Unparse(h.sport, 2) + Unparse(h.dport, 2) + Unparse(h.seqno, 4) + Unparse(h.ackno, 4)
    + Unparse(h.doff * 16 % 0x100, 1) + Unparse(FlagByte(h), 1) + Unparse(h.win, 2)
  }

  /** No header is written with a data offset below the minimum. */
  function SerializeHeader(h: TcpHeader): Option<seq<byte>> {
    if h.doff < 5 then None
    else Some(BeforeChecksum(h) + Unparse(h.cksum, 2) + (Unparse(h.uptr, 2) + Zeros(4 * h.doff - LENGTH)))
  }

  datatype ParsedHeader = ParsedHeader(header: TcpHeader, rest: Parser, result: ParseResult)

  function ParseAddressing(p0: Parser): (uint16, uint16, uint32, uint32, Parser) {
    var (sport, p1) := TakeU16(p0);
    var (dport, p2) := TakeU16(p1);
    var (seqno, p3) := TakeU32(p2);
    var (ackno, p4) := TakeU32(p3);
    (sport, dport, seqno, ackno, p4)
  }

  function ParseControl(p4: Parser): (byte, byte, uint16, uint16, uint16, Parser) {
    var (offset, p5) := TakeU8(p4);
    var (flags, p6) := TakeU8(p5);
    var (win, p7) := TakeU16(p6);
    var (cksum, p8) := TakeU16(p7);
    var (uptr, p9) := TakeU16(p8);
    (offset, flags, win, cksum, uptr, p9)
  }

  /** The fields are assigned whatever the outcome; options are skipped if there are any. */
  function ParseHeader(p0: Parser): ParsedHeader {
    var (sport, dport, seqno, ackno, p4) := ParseAddressing(p0);
    var (offset, flags, win, cksum, uptr, p9) := ParseControl(p4);
    SkipOptions(HeaderFrom(sport, dport, seqno, ackno, offset, flags, win, cksum, uptr), p9)
  }

  function HeaderFrom(sport: uint16, dport: uint16, seqno: uint32, ackno: uint32, offset: byte, flags: byte,
                      win: uint16, cksum: uint16, uptr: uint16): TcpHeader {
    TcpHeader(sport, dport, seqno, ackno, offset / 16,
              HasBit(flags, 32), HasBit(flags, 16), HasBit(flags, 8),
              HasBit(flags, 4), HasBit(flags, 2), HasBit(flags, 1),
              win, cksum, uptr)
  }

  function SkipOptions(h: TcpHeader, p: Parser): ParsedHeader {
    if h.doff < 5 then ParsedHeader(h, p, HeaderTooShort)
    else
      var skipped := p.RemovePrefix(h.doff * 4 - LENGTH);
      ParsedHeader(h, skipped, skipped.error)
  }

  // ----- The segment -----

  function SerializeSegment(seg: TcpSegment, pseudo: uint32): Option<seq<byte>> {
    var blank := SerializeHeader(seg.header.(cksum := 0));
    if blank.None? then None else
    var cksum := Checksum(pseudo, false).Add(blank.value).Add(seg.payload).Value();
    Some(SerializeHeader(seg.header.(cksum := cksum)).value + seg.payload)
  }

  /** The segment after parsing, and the result reported. The header parser's own verdict is not used. */
  function ParseSegment(old': TcpSegment, text: seq<byte>, pseudo: uint32): (TcpSegment, ParseResult) {
    if Checksum(pseudo, false).Add(text).Value() != 0 then (old', BadChecksum)
    else
      var parsed := ParseHeader(Parser(text, NoError));
      (TcpSegment(parsed.header, parsed.rest.buffer), parsed.rest.error)
  }

  // ----- Reading what was written -----

  lemma FlagsReadBack(h: TcpHeader)
    ensures var b := FlagByte(h);
            && HasBit(b, 32) == h.urg && HasBit(b, 16) == h.ack && HasBit(b, 8) == h.psh
            && HasBit(b, 4) == h.rst && HasBit(b, 2) == h.syn && HasBit(b, 1) == h.fin
  {
  }

  /** Where each field sits in the text. */
  ghost predicate Layout(text: seq<byte>, h: TcpHeader) {
    && |text| >= LENGTH
    && text[0..2] == Unparse(h.sport, 2) && text[2..4] == Unparse(h.dport, 2)
    && text[4..8] == Unparse(h.seqno, 4) && text[8..12] == Unparse(h.ackno, 4)
    && text[12] == h.doff * 16 % 0x100 && text[13] == FlagByte(h)
    && text[14..16] == Unparse(h.win, 2) && text[16..18] == Unparse(h.cksum, 2) && text[18..20] == Unparse(h.uptr, 2)
  }

  lemma SerializedLayout(h: TcpHeader, payload: seq<byte>)
    requires 5 <= h.doff
    ensures Layout(SerializeHeader(h).value + payload, h)
    ensures |SerializeHeader(h).value| == 4 * h.doff
    ensures forall i :: 20 <= i < 4 * h.doff ==> SerializeHeader(h).value[i] == 0
    ensures (SerializeHeader(h).value + payload)[4 * h.doff..] == payload
  {
    var text, before := SerializeHeader(h).value + payload, BeforeChecksum(h);
    UnparseOne(h.doff * 16 % 0x100);
    UnparseOne(FlagByte(h));
    assert text[..16] == before;
    assert before[14..16] == Unparse(h.win, 2);
    assert text[14..16] == before[14..16];
    assert text[16..18] == Unparse(h.cksum, 2);
    assert text[18..20] == Unparse(h.uptr, 2);
  }

  lemma AddressingFromLayout(text: seq<byte>, h: TcpHeader)
    requires Layout(text, h)
    ensures ParseAddressing(Parser(text, NoError)) == (h.sport, h.dport, h.seqno, h.ackno, Parser(text[12..], NoError))
  {
    assert text[0..] == text;
    TakeU16At(text, 0, h.sport);
    TakeU16At(text, 2, h.dport);
    TakeU32At(text, 4, h.seqno);
    TakeU32At(text, 8, h.ackno);
  }

  lemma ControlFromLayout(text: seq<byte>, h: TcpHeader)
    requires Layout(text, h)
    ensures ParseControl(Parser(text[12..], NoError))
            == (text[12], text[13], h.win, h.cksum, h.uptr, Parser(text[LENGTH..], NoError))
  {
    TakeU8At(text, 12);
    TakeU8At(text, 13);
    TakeU16At(text, 14, h.win);
    TakeU16At(text, 16, h.cksum);
    TakeU16At(text, 18, h.uptr);
  }

  /** Parsing reads the fields off their places. */
  lemma ParseFromLayout(text: seq<byte>, h: TcpHeader)
    requires Layout(text, h) && h.doff < 16
    ensures ParseHeader(Parser(text, NoError)) == SkipOptions(h, Parser(text[LENGTH..], NoError))
  {
    FieldsReadBack(h);
    AddressingFromLayout(text, h);
    ControlFromLayout(text, h);
  }

  lemma FieldsReadBack(h: TcpHeader)
    requires h.doff < 16
    ensures HeaderFrom(h.sport, h.dport, h.seqno, h.ackno, h.doff * 16 % 0x100, FlagByte(h),
                       h.win, h.cksum, h.uptr) == h
  {
    FlagsReadBack(h);
    assert h.doff * 16 % 0x100 == h.doff * 16;
  }

  /** A header that was written is read back, options skipped, whatever follows it. */
  lemma HeaderRoundTrip(h: TcpHeader, payload: seq<byte>)
    requires 5 <= h.doff < 16
    ensures ParseHeader(Parser(SerializeHeader(h).value + payload, NoError))
            == ParsedHeader(h, Parser(payload, NoError), NoError)
  {
    var text := SerializeHeader(h).value + payload;
    SerializedLayout(h, payload);
    ParseFromLayout(text, h);
    assert text[LENGTH..][h.doff * 4 - LENGTH..] == payload;
  }

  /** The data offset has four bits on the wire: only the values that fit survive. */
  lemma HeaderRoundTripIff(h: TcpHeader, payload: seq<byte>)
    requires 5 <= h.doff
    ensures ParseHeader(Parser(SerializeHeader(h).value + payload, NoError)).header == h <==> h.doff < 16
  {
    if h.doff < 16 {
      HeaderRoundTrip(h, payload);
    } else {
      var text := SerializeHeader(h).value + payload;
      assert ParseHeader(Parser(text, NoError)).header.doff < 16;
    }
  }

  /** Serialised segments verify and come back, same fields, same payload, with the checksum filled in,
      exactly when the checksum's accumulator does not overflow; otherwise the peer rejects them. */
  lemma SegmentRoundTripIff(seg: TcpSegment, pseudo: uint32, old': TcpSegment)
    requires 5 <= seg.header.doff < 16
    ensures var text := SerializeSegment(seg, pseudo).value;
            ParseSegment(old', text, pseudo)
            == if SegmentSum(seg, pseudo).sum + SegmentChecksum(seg, pseudo) < U32
               then (seg.(header := seg.header.(cksum := SegmentChecksum(seg, pseudo))), NoError)
               else (old', BadChecksum)
  {
    SerializedVerifiesIff(seg, pseudo);
    HeaderRoundTrip(seg.header.(cksum := SegmentChecksum(seg, pseudo)), seg.payload);
  }

  /** Every segment that fits a datagram, with the pseudo-checksum of one, makes the round trip. */
  lemma SegmentRoundTrip(seg: TcpSegment, pseudo: uint32, old': TcpSegment)
    requires 5 <= seg.header.doff < 16 && |seg.payload| <= 0xFFFF && pseudo <= 5 * 0xFFFF + 0xFF
    ensures ParseSegment(old', SerializeSegment(seg, pseudo).value, pseudo)
            == (seg.(header := seg.header.(cksum := SegmentChecksum(seg, pseudo))), NoError)
  {
    var blank := SerializeHeader(seg.header.(cksum := 0)).value;
    AddConcat(Checksum(pseudo, false), blank, seg.payload);
    RoomForChecksum(pseudo, blank + seg.payload, SegmentChecksum(seg, pseudo));
    SegmentRoundTripIff(seg, pseudo, old');
  }

  function SegmentSum(seg: TcpSegment, pseudo: uint32): Checksum
    requires 5 <= seg.header.doff
  {
    Checksum(pseudo, false).Add(SerializeHeader(seg.header.(cksum := 0)).value).Add(seg.payload)
  }

  function SegmentChecksum(seg: TcpSegment, pseudo: uint32): uint16
    requires 5 <= seg.header.doff
  {
    SegmentSum(seg, pseudo).Value()
  }

  lemma SerializedVerifiesIff(seg: TcpSegment, pseudo: uint32)
    requires 5 <= seg.header.doff
    ensures Checksum(pseudo, false).Add(SerializeSegment(seg, pseudo).value).Value() == 0
            <==> SegmentSum(seg, pseudo).sum + SegmentChecksum(seg, pseudo) < U32
  {
    var blank, cksum := SerializeHeader(seg.header.(cksum := 0)).value, SegmentChecksum(seg, pseudo);
    var before := BeforeChecksum(seg.header);
    var after := (Unparse(seg.header.uptr, 2) + Zeros(4 * seg.header.doff - LENGTH)) + seg.payload;
    AddConcat(Checksum(pseudo, false), blank, seg.payload);
    AroundChecksum(seg.header, 0, seg.payload);
    AroundChecksum(seg.header, cksum, seg.payload);
    UnparsedWord(0);
    FilledTextVerifiesIff(pseudo, before, after, cksum);
  }

  /** The checksum is the only part of the text that depends on the checksum field. */
  lemma AroundChecksum(h: TcpHeader, cksum: uint16, payload: seq<byte>)
    requires 5 <= h.doff
    ensures SerializeHeader(h.(cksum := cksum)).value + payload
            == BeforeChecksum(h) + Unparse(cksum, 2) + ((Unparse(h.uptr, 2) + Zeros(4 * h.doff - LENGTH)) + payload)
  {
    var h' := h.(cksum := cksum);
    assert BeforeChecksum(h') == BeforeChecksum(h);
    assert SerializeHeader(h').value
           == BeforeChecksum(h) + Unparse(cksum, 2) + (Unparse(h.uptr, 2) + Zeros(4 * h.doff - LENGTH));
  }

  /** What the segment parser accepts: the text verifies, a whole header is there, and the options it
      announces are there too. A data offset below the minimum is accepted: that verdict is dropped. */
  lemma ParseAcceptsIff(old': TcpSegment, text: seq<byte>, pseudo: uint32)
    ensures ParseSegment(old', text, pseudo).1 == NoError <==>
              && Checksum(pseudo, false).Add(text).Value() == 0
              && |text| >= LENGTH && (text[12] / 16 < 5 || 4 * (text[12] / 16) <= |text|)
  {
    if |text| >= LENGTH {
      FieldsParsed(text);
      OptionsVerdict(HeaderAt(text), text);
    } else {
      ShortHeaderFails(Parser(text, NoError));
    }
  }

  lemma OptionsVerdict(h: TcpHeader, text: seq<byte>)
    requires |text| >= LENGTH
    ensures SkipOptions(h, Parser(text[LENGTH..], NoError)).rest.error == NoError
            <==> h.doff < 5 || 4 * h.doff <= |text|
  {
  }

  /** The header that the first twenty bytes of a text spell out (RFC 793, section 3.1). */
  function HeaderAt(text: seq<byte>): TcpHeader
    requires |text| >= 20
  {
    var flags := text[13];
    TcpHeader(Two(text, 0), Two(text, 2), Four(text, 4), Four(text, 8), text[12] / 16,
              flags / 32 % 2 == 1, flags / 16 % 2 == 1, flags / 8 % 2 == 1,
              flags / 4 % 2 == 1, flags / 2 % 2 == 1, flags % 2 == 1,
              Two(text, 14), Two(text, 16), Two(text, 18))
  }

  /** Parsing a text that is long enough reads off every field. */
  lemma FieldsParsed(text: seq<byte>)
    requires |text| >= LENGTH
    ensures ParseHeader(Parser(text, NoError)) == SkipOptions(HeaderAt(text), Parser(text[LENGTH..], NoError))
  {
    hide TakeU8, TakeU16, TakeU32, Two, Four, SkipOptions;
    assert text[0..] == text;
    TakesTwo(text, 0); TakesTwo(text, 2); TakesFour(text, 4); TakesFour(text, 8);
    TakeU8At(text, 12); TakeU8At(text, 13); TakesTwo(text, 14); TakesTwo(text, 16); TakesTwo(text, 18);
  }

  /** A parser that has failed stays where it is, and one that runs short fails. */
  lemma ShortHeaderFails(p: Parser)
    requires |p.buffer| < LENGTH
    ensures ParseHeader(p).rest.error != NoError
  {
  }

  // ----- The operations -----

  /** Consumes the parser field by field. */
  method ParseTcpHeader(p: NetParser) returns (h: TcpHeader, result: ParseResult)
    modifies p
    ensures ParsedHeader(h, p.View(), result) == ParseHeader(old(p.View()))
  {
    hide Parser.CheckSize;
    ghost var p0 := p.View();
    var sport := ReadU16(p);
    var dport := ReadU16(p);
    var seqno := ReadU32(p);
    var ackno := ReadU32(p);
    ghost var p4 := p.View();
    assert ParseAddressing(p0) == (sport, dport, seqno, ackno, p4);
    var offset := ReadU8(p);
    var flags := ReadU8(p);
    var win := ReadU16(p);
    var cksum := ReadU16(p);
    var uptr := ReadU16(p);
    assert ParseControl(p4) == (offset, flags, win, cksum, uptr, p.View());
    h := TcpHeader(sport, dport, seqno, ackno, offset / 16,
                   HasBit(flags, 32), HasBit(flags, 16), HasBit(flags, 8),
                   HasBit(flags, 4), HasBit(flags, 2), HasBit(flags, 1),
                   win, cksum, uptr);
    assert h == HeaderFrom(sport, dport, seqno, ackno, offset, flags, win, cksum, uptr);
    assert ParseHeader(p0) == SkipOptions(h, p.View());
    if h.doff < 5 {
      return h, HeaderTooShort;
    }
    p.RemovePrefix(h.doff * 4 - LENGTH);
    result := p.error;
  }

  /** Appends the header field by field and pads it to the announced length. */
  method SerializeTcpHeader(h: TcpHeader) returns (text: Option<seq<byte>>)
    ensures text == SerializeHeader(h)
  {
    if h.doff < 5 {
      return None;
    }
    var ret := SerializeFields(h);
    ret := UnparseInt(ret, h.cksum, 2);
    ret := UnparseInt(ret, h.uptr, 2);
    ret := ret + Zeros(4 * h.doff - |ret|);
    assert ret == SerializeHeader(h).value;
    text := Some(ret);
  }

  method SerializeFields(h: TcpHeader) returns (ret: seq<byte>)
    ensures ret == BeforeChecksum(h)
  {
    ret := UnparseInt([], h.sport, 2);
    assert ret == Unparse(h.sport, 2);
    ret := UnparseInt(ret, h.dport, 2);
    ret := UnparseInt(ret, h.seqno, 4);
    ret := UnparseInt(ret, h.ackno, 4);
    ret := UnparseInt(ret, h.doff * 16 % 0x100, 1);
    var flags: byte := (if h.urg then 32 else 0) + (if h.ack then 16 else 0) + (if h.psh then 8 else 0)
                       + (if h.rst then 4 else 0) + (if h.syn then 2 else 0) + (if h.fin then 1 else 0);
    assert flags == FlagByte(h);
    ret := UnparseInt(ret, flags, 1);
    ret := UnparseInt(ret, h.win, 2);
  }

  /** Parses in place of the segment it is given. */
  method ParseTcpSegment(before: TcpSegment, text: seq<byte>, pseudo: uint32)
    returns (seg: TcpSegment, result: ParseResult)
    ensures (seg, result) == ParseSegment(before, text, pseudo)
  {
    var check := new InternetChecksum(pseudo);
    check.Add(text);
    var val := check.Value();
    if val != 0 {
      return before, BadChecksum;
    }
    var p := new NetParser(text);
    var header, ignored := ParseTcpHeader(p);
    seg := TcpSegment(header, p.buffer);
    result := p.error;
  }

  method SerializeTcpSegment(seg: TcpSegment, pseudo: uint32) returns (text: Option<seq<byte>>)
    ensures text == SerializeSegment(seg, pseudo)
  {
    var header := seg.header.(cksum := 0);
    var blank := SerializeTcpHeader(header);
    if blank.None? {
      return None;
    }
    var check := new InternetChecksum(pseudo);
    check.Add(blank.value);
    check.Add(seg.payload);
    var val := check.Value();
    header := header.(cksum := val);
    var filled := SerializeTcpHeader(header);
    text := Some(filled.value + seg.payload);
  }
}
