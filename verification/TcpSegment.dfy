/** TCP segments as values, and what a segment stands for in the stream it belongs to. */
module TcpSegments {
  import opened Base
  import opened WrappingIntegers

  const MAX_PAYLOAD_SIZE := 1452

  datatype TcpHeader = TcpHeader(
    sport: uint16, dport: uint16, seqno: uint32, ackno: uint32, doff: byte,
    urg: bool, ack: bool, psh: bool, rst: bool, syn: bool, fin: bool,
    win: uint16, cksum: uint16, uptr: uint16)

  const DEFAULT_HEADER :=
    TcpHeader(0, 0, 0, 0, 5, false, false, false, false, false, false, 0, 0, 0)

  datatype TcpSegment = TcpSegment(header: TcpHeader, payload: seq<byte>)
  {
    /** SYN and FIN each count for one byte. */
    function SequenceLength(): nat {
      |payload| + (if header.syn then 1 else 0) + (if header.fin then 1 else 0)
    }
  }

  /** `seg` is a segment of the stream `taken`, placed at absolute sequence number `k`: the SYN at 0,
      data bytes from 1 on, and the FIN, which only a finished stream has, behind the last byte. */
  ghost predicate Carries(seg: TcpSegment, k: nat, isn: uint32, taken: seq<byte>, finished: bool) {
    && seg.header.seqno == Wrap(k, isn)
    && |seg.payload| <= MAX_PAYLOAD_SIZE
    && if seg.header.syn then
         k == 0 && seg.payload == [] && !seg.header.fin
       else if seg.payload != [] || seg.header.fin then
         && 1 <= k && k - 1 + |seg.payload| <= |taken|
         && seg.payload == taken[k - 1..k - 1 + |seg.payload|]
         && (seg.header.fin ==> finished && k - 1 + |seg.payload| == |taken|)
       else
         k <= |taken| + 2
  }

  /** A stream grows at its end only, and not at all once it is finished. */
  ghost predicate Extends(taken: seq<byte>, finished: bool, taken': seq<byte>, finished': bool) {
    taken <= taken' && (finished ==> finished' && taken' == taken)
  }

  lemma CarriesInExtension(seg: TcpSegment, k: nat, isn: uint32,
                           taken: seq<byte>, finished: bool, taken': seq<byte>, finished': bool)
    requires Carries(seg, k, isn, taken, finished) && Extends(taken, finished, taken', finished')
    ensures Carries(seg, k, isn, taken', finished')
  {
  }
}
