/** The receiving half of an endpoint: window test, reassembly, acknowledgement number. */
module TcpReceivers {
  import opened Base
  import opened WrappingIntegers
  import opened StreamReassemblers
  import opened TcpSegments

  datatype Receiver = Receiver(
    reassembler: Reassembler, isn: uint32, synSet: bool, finSet: bool, checkpoint: nat, ackno: uint32)
  {
    function WindowSize(): nat { reassembler.output.Remaining() }

    function Ended(): bool { reassembler.output.ended }

    function Written(): nat { reassembler.output.writCount }

    /** The new state, and whether any part of the segment was of use. */
    function SegmentReceived(seg: TcpSegment): (Receiver, bool) {
      if synSet == seg.header.syn then (this, false) else
      var opened' := if synSet then this else this.(isn := seg.header.seqno, ackno := seg.header.seqno, synSet := true);
      if opened'.finSet && seg.header.fin then (opened', false)
      else (Accept(opened', seg), FallsInWindow(opened', seg) || seg.header.fin || seg.header.syn)
    }
  }

  function EmptyReceiver(capacity: nat): Receiver {
    Receiver(EmptyReassembler(capacity), 0, false, false, 0, 0)
  }

  /** The receiver with its inbound stream marked as failed. */
  function Failed(r: Receiver): Receiver {
    r.(reassembler := r.reassembler.(output := r.reassembler.output.(error := true)))
  }

  function LastOffset(length: nat): nat {
    if length > 0 then length - 1 else 0
  }

  function SegStart(r: Receiver, seg: TcpSegment): uint64 {
    Unwrap(seg.header.seqno, r.isn, r.checkpoint)
  }

  function SegEnd(r: Receiver, seg: TcpSegment): nat {
    SegStart(r, seg) + LastOffset(seg.SequenceLength())
  }

  /** The absolute acknowledgement number. */
  function WindowStart(r: Receiver): uint64 {
    Unwrap(r.ackno, r.isn, r.checkpoint)
  }

  function WindowEnd(r: Receiver): nat {
    WindowStart(r) + LastOffset(r.WindowSize())
  }

  function PayloadEnd(r: Receiver, seg: TcpSegment): nat {
    var end := SegEnd(r, seg);
    if seg.header.syn && seg.header.fin then (if end > 2 then end - 2 else 0)
    else if seg.header.syn || seg.header.fin then (if end > 1 then end - 1 else 0)
    else end
  }

  predicate FallsInWindow(r: Receiver, seg: TcpSegment) {
    || WindowStart(r) <= SegStart(r, seg) <= WindowEnd(r)
    || (PayloadEnd(r, seg) >= WindowStart(r) && SegEnd(r, seg) <= WindowEnd(r))
  }

  /** The stream index of the segment's first byte: one less than its position, in 64 bits. */
  function StreamIndex(r: Receiver, seg: TcpSegment): uint64 {
    (SegStart(r, seg) - 1) % U64
  }

  function Reassemble(r: Receiver, seg: TcpSegment): Reassembler {
    if FallsInWindow(r, seg) then
      r.reassembler.PushSubstring(seg.payload, StreamIndex(r, seg), seg.header.fin)
    else r.reassembler
  }

  function NoteFin(r: Receiver, seg: TcpSegment): Receiver {
    if !r.finSet && seg.header.fin then
      var output := r.reassembler.output;
      var lone := seg.header.syn && seg.SequenceLength() == 2;
      r.(finSet := true, reassembler := r.reassembler.(output := output.(ended := output.ended || lone)))
    else r
  }

  /** The acknowledgement number is recomputed only when the whole payload has been written. */
  function Acknowledge(r: Receiver, payloadEnd: nat): Receiver {
    var written := r.Written();
    var fin := if r.finSet && r.reassembler.pending == map[] then 1 else 0;
    if payloadEnd <= written then
      r.(checkpoint := written, ackno := Wrap(written + fin + 1, r.isn))
    else
      r.(checkpoint := written)
  }

  function Accept(r: Receiver, seg: TcpSegment): Receiver {
    Acknowledge(NoteFin(r.(reassembler := Reassemble(r, seg)), seg), PayloadEnd(r, seg))
  }

  // ----- What the receiver knows about the peer's stream -----

  const MAX_CAPACITY := 0xFFFF
  /** How far the acknowledgement number can lag behind the bytes written. */
  const MAX_LAG := MAX_CAPACITY + MAX_PAYLOAD_SIZE + 1

  predicate Knows(r: Reassembler, i: nat) {
    i < r.nextIndex || i in r.pending
  }

  /** Everything held or passed on is part of the stream. */
  ghost predicate KnownIsTaken(r: Reassembler, read: seq<byte>, taken: seq<byte>) {
    forall i: nat :: KnownAt(r, read, i).Some? ==> i < |taken| && KnownAt(r, read, i) == Some(taken[i])
  }

  ghost predicate LastByteKnown(r: Reassembler, read: seq<byte>, taken: seq<byte>) {
    |taken| == 0 || KnownAt(r, read, |taken| - 1).Some?
  }

  /** The absolute number one past everything the receiver has taken in. */
  function AckLimit(r: Receiver): nat {
    if !r.synSet then 0 else r.Written() + 1 + (if r.Ended() then 1 else 0)
  }

  ghost predicate Untouched(r: Receiver) {
    && !r.synSet && !r.finSet && r.checkpoint == 0
    && r.reassembler.pending == map[] && r.reassembler.nextIndex == 0 && !r.reassembler.eof
    && r.Written() == 0 && !r.Ended()
  }

  ghost predicate Listening(r: Receiver, read: seq<byte>, isn: uint32, taken: seq<byte>, finished: bool) {
    && r.synSet && r.isn == isn && r.checkpoint == r.Written()
    && KnownIsTaken(r.reassembler, read, taken)
    && (r.reassembler.eof ==> r.finSet) && (r.finSet ==> finished)
    && 1 <= WindowStart(r) <= AckLimit(r)
    && r.Written() <= WindowStart(r) + MAX_LAG
  }

  /** All that the receiver holds, says and acknowledges is true of the peer's stream: what it knows is part
      of it, it has ended only with all of it, and it acknowledges only what it has taken in. */
  ghost predicate Faithful(r: Receiver, read: seq<byte>, isn: uint32, taken: seq<byte>, finished: bool) {
    && r.reassembler.output.capacity <= MAX_CAPACITY && |taken| <= MAX_STREAM
    && |read| == r.reassembler.output.readCount
    && if !r.synSet then Untouched(r)
       else
         && Listening(r, read, isn, taken, finished)
         && if r.Ended() then
              && r.reassembler.eof && r.reassembler.pending == map[] && r.reassembler.nextIndex == 0
              && r.Written() == |taken| && WindowStart(r) == AckLimit(r)
            else
              && Running(r.reassembler, read)
              && (r.reassembler.eof ==> r.reassembler.pending != map[])
  }

  // ----- What a segment is about to do, as the receiver can tell on its arrival -----

  /** Neither a repeated SYN nor a repeated FIN. */
  predicate Heeded(r: Receiver, seg: TcpSegment) {
    r.synSet && !seg.header.syn && !(r.finSet && seg.header.fin)
  }

  /** The byte at stream index `i` is here, or comes with the segment. */
  predicate KnownOrOffered(r: Receiver, seg: TcpSegment, i: nat) {
    Knows(r.reassembler, i) || OfferedAt(r.reassembler, seg.payload, StreamIndex(r, seg), i).Some?
  }

  /** No byte will be held back once the segment is in. */
  predicate LeavesNoGap(r: Receiver, seg: TcpSegment) {
    if FallsInWindow(r, seg) then
      forall i: nat, j: nat | j < i < RightEdge(r.reassembler) ::
        KnownOrOffered(r, seg, i) ==> KnownOrOffered(r, seg, j)
    else
      r.reassembler.pending == map[]
  }

  /** The end of the segment does not lie past the right edge. */
  predicate Fits(r: Receiver, seg: TcpSegment) {
    SegStart(r, seg) - 1 + |seg.payload| <= RightEdge(r.reassembler)
  }

  /** A FIN has been, or is being, taken in whole. */
  predicate EofAfter(r: Receiver, seg: TcpSegment) {
    r.reassembler.eof || (seg.header.fin && FallsInWindow(r, seg) && Fits(r, seg))
  }

  /** The inbound stream ends with this segment. */
  predicate EndsStream(r: Receiver, seg: TcpSegment) {
    !r.Ended() && Heeded(r, seg) && FallsInWindow(r, seg) && EofAfter(r, seg) && LeavesNoGap(r, seg)
  }

  /** It ends, and the last byte of a stream of this length has not come. */
  predicate EndsEarly(r: Receiver, seg: TcpSegment, length: nat) {
    EndsStream(r, seg) && length > 0 && !KnownOrOffered(r, seg, length - 1)
  }

  /** The payload will have been written to its end, so that the acknowledgement number is recomputed. */
  predicate WrittenOut(r: Receiver, seg: TcpSegment) {
    if FallsInWindow(r, seg) && seg.payload != [] then Fits(r, seg) else PayloadEnd(r, seg) <= r.Written()
  }

  /** A FIN has been noted that was not taken in, nothing is held back, and the number is recomputed. */
  predicate Overcounts(r: Receiver, seg: TcpSegment) {
    && !r.Ended() && Heeded(r, seg)
    && (r.finSet || seg.header.fin) && !EofAfter(r, seg)
    && LeavesNoGap(r, seg) && WrittenOut(r, seg)
  }

  /** A FIN arrives in good order: inside the window, whole, and with the stream's last byte in it
      or already here. A receiver can decide this from its own state and the segment. */
  predicate FinInOrder(r: Receiver, seg: TcpSegment) {
    r.synSet && !r.finSet && seg.header.fin ==>
      var start := SegStart(r, seg);
      && FallsInWindow(r, seg)
      && start - 1 + |seg.payload| <= RightEdge(r.reassembler)
      && (seg.payload != [] || start <= 1 || Knows(r.reassembler, start - 2))
  }

  lemma StartOfSegment(r: Receiver, seg: TcpSegment, k: nat, isn: uint32, taken: seq<byte>, finished: bool)
    requires Carries(seg, k, isn, taken, finished) && r.isn == isn
    requires -U31 <= k - r.checkpoint < U31 && r.checkpoint <= MAX_STREAM
    ensures SegStart(r, seg) == k
    ensures k >= 1 ==> StreamIndex(r, seg) == k - 1
  {
    UnwrapOfWrap(k, isn, r.checkpoint);
  }

  /** After the window start is left alone or recomputed, it is what it should be. */
  lemma AcknowledgeStart(r: Receiver, payloadEnd: nat, before: Receiver)
    requires r.ackno == before.ackno && r.isn == before.isn
    requires r.Written() <= MAX_STREAM
    requires -U31 <= WindowStart(before) - r.Written() < U31
    ensures var fin := if r.finSet && r.reassembler.pending == map[] then 1 else 0;
            WindowStart(Acknowledge(r, payloadEnd))
            == if payloadEnd <= r.Written() then r.Written() + fin + 1 else WindowStart(before)
  {
    var fin := if r.finSet && r.reassembler.pending == map[] then 1 else 0;
    UnwrapOfWrap(r.Written() + fin + 1, r.isn, r.Written());
    WrapOfUnwrap(before.ackno, before.isn, before.checkpoint);
    UnwrapOfWrap(WindowStart(before), r.isn, r.Written());
  }

  lemma FaithfulBeforeSyn(r: Receiver, read: seq<byte>, seg: TcpSegment, k: nat,
                          isn: uint32, taken: seq<byte>, finished: bool)
    requires Faithful(r, read, isn, taken, finished) && Carries(seg, k, isn, taken, finished)
    requires !r.synSet && seg.header.syn
    ensures Faithful(r.SegmentReceived(seg).0, read, isn, taken, finished)
    ensures WindowStart(r.SegmentReceived(seg).0) == 1 && r.SegmentReceived(seg).0.Written() == 0
    ensures r.SegmentReceived(seg).1
  {
    var r0 := r.(isn := seg.header.seqno, ackno := seg.header.seqno, synSet := true);
    assert Wrap(0, isn) == isn;
    UnwrapOfWrap(0, isn, 0);
    assert SegStart(r0, seg) == 0 && WindowStart(r0) == 0;
    assert PayloadEnd(r0, seg) == 0 && FallsInWindow(r0, seg);
    var index := StreamIndex(r0, seg);
    assert StorePushed(r.reassembler, [], index).pending == r.reassembler.pending;
    assert r.reassembler.PushSubstring([], index, false) == r.reassembler;
    AcknowledgeStart(r0, 0, r0);
  }

  lemma TakenBound(r: Receiver, read: seq<byte>, isn: uint32, taken: seq<byte>, finished: bool)
    requires Faithful(r, read, isn, taken, finished) && r.synSet
    ensures r.Written() <= |taken|
    ensures RightEdge(r.reassembler) <= |taken| + MAX_CAPACITY
  {
    AssembledBound(r.reassembler, read, taken);
  }

  lemma AssembledBound(p: Reassembler, read: seq<byte>, taken: seq<byte>)
    requires KnownIsTaken(p, read, taken) && |read| == p.output.readCount
    ensures p.output.writCount == |Assembled(p, read)| <= |taken|
  {
    var w := Assembled(p, read);
    if |w| > 0 { assert KnownAt(p, read, |w| - 1).Some?; }
  }

  /** The window test keeps every accepted segment's start within the reassembler's window. */
  lemma AcceptedStart(r: Receiver, read: seq<byte>, seg: TcpSegment, k: nat,
                      isn: uint32, taken: seq<byte>, finished: bool)
    requires Faithful(r, read, isn, taken, finished) && Carries(seg, k, isn, taken, finished)
    requires r.synSet && !r.Ended() && !seg.header.syn && SegStart(r, seg) == k
    requires FallsInWindow(r, seg)
    ensures 1 <= k <= RightEdge(r.reassembler) + 1
    ensures StartsInWindow(r.reassembler, seg.payload, k - 1)
    ensures k <= WindowStart(r) + MAX_CAPACITY
  {
    TakenBound(r, read, isn, taken, finished);
    assert k <= SegEnd(r, seg);
    assert WindowEnd(r) <= r.Written() + Max(r.WindowSize(), 1);
    assert r.Written() + r.WindowSize() == RightEdge(r.reassembler);
  }

  /** What reassembling one segment does to a receiver whose stream is still open. */
  ghost predicate Reassembled(r: Reassembler, p: Reassembler, read: seq<byte>, taken: seq<byte>) {
    && KnownIsTaken(p, read, taken)
    && (forall i: nat :: KnownAt(r, read, i).Some? ==> KnownAt(p, read, i).Some?)
    && (p.output.ended <==> p.eof && p.pending == map[])
    && (if p.output.ended then p.nextIndex == 0 else Running(p, read))
    && p.output == r.output.(buffer := p.output.buffer, writCount := p.output.writCount, ended := p.output.ended)
    && r.output.buffer <= p.output.buffer
  }

  /** An excerpt of the stream that starts in the window only adds bytes of the stream. */
  lemma PushTaken(r: Reassembler, read: seq<byte>, data: seq<byte>, index: uint64, eof: bool, taken: seq<byte>)
    requires Running(r, read) && StartsInWindow(r, data, index) && KnownIsTaken(r, read, taken)
    requires data != [] ==> index + |data| <= |taken| && data == taken[index..index + |data|]
    ensures var p := r.PushSubstring(data, index, eof);
            && Reassembled(r, p, read, taken)
            && p.eof == (r.eof || (eof && index + |data| <= RightEdge(r)))
            && (data != [] && index + |data| <= RightEdge(r) ==> KnownAt(p, read, index + |data| - 1).Some?)
            && (data == [] ==> p.pending == r.pending && p.output.writCount == r.output.writCount)
  {
    hide Bounded;
    PushKnown(r, read, data, index, eof);
    var p := r.PushSubstring(data, index, eof);
    forall i: nat | KnownAt(p, read, i).Some? ensures i < |taken| && KnownAt(p, read, i) == Some(taken[i]) {
      if KnownAt(r, read, i).None? {
        assert OfferedAt(r, data, index, i).Some?;
        assert data[i - index] == taken[i];
      }
    }
    if data == [] {
      assert StorePushed(r, data, index).pending == r.pending;
    } else if index + |data| <= RightEdge(r) {
      assert OfferedAt(r, data, index, index + |data| - 1).Some?;
    }
  }

  /** The outcome for a segment at position `k`, in terms of whether it is in the window and fits. */
  ghost predicate TakesIn(r: Receiver, seg: TcpSegment, k: nat, read: seq<byte>, taken: seq<byte>) {
    var p := Reassemble(r, seg);
    var whole := FallsInWindow(r, seg) && k - 1 + |seg.payload| <= RightEdge(r.reassembler);
    && Reassembled(r.reassembler, p, read, taken)
    && p.eof == (r.reassembler.eof || (seg.header.fin && whole))
    && (whole && seg.payload != [] ==> k >= 1 && KnownAt(p, read, k + |seg.payload| - 2).Some?)
    && (seg.payload == [] ==> p.pending == r.reassembler.pending && p.output.writCount == r.Written())
  }

  lemma PushIsReassemble(r: Receiver, seg: TcpSegment, k: nat)
    requires FallsInWindow(r, seg) && SegStart(r, seg) == k && 1 <= k
    ensures Reassemble(r, seg) == r.reassembler.PushSubstring(seg.payload, k - 1, seg.header.fin)
  {
    PreviousIndex(k);
  }

  lemma PreviousIndex(k: uint64)
    requires k >= 1
    ensures (k - 1) % U64 == k - 1
  {
  }

  lemma PushTakesIn(r: Receiver, read: seq<byte>, seg: TcpSegment, k: nat, taken: seq<byte>)
    requires FallsInWindow(r, seg) && SegStart(r, seg) == k && 1 <= k
    requires Running(r.reassembler, read) && KnownIsTaken(r.reassembler, read, taken)
    requires StartsInWindow(r.reassembler, seg.payload, k - 1)
    requires seg.payload != [] ==>
               k - 1 + |seg.payload| <= |taken| && seg.payload == taken[k - 1..k - 1 + |seg.payload|]
    ensures TakesIn(r, seg, k, read, taken)
  {
    PushIsReassemble(r, seg, k);
    PushTaken(r.reassembler, read, seg.payload, k - 1, seg.header.fin, taken);
  }

  lemma ReassembleKnown(r: Receiver, read: seq<byte>, seg: TcpSegment, k: nat,
                        isn: uint32, taken: seq<byte>, finished: bool)
    requires Faithful(r, read, isn, taken, finished) && Carries(seg, k, isn, taken, finished)
    requires r.synSet && !r.Ended() && !seg.header.syn && SegStart(r, seg) == k
    ensures TakesIn(r, seg, k, read, taken)
  {
    if FallsInWindow(r, seg) {
      AcceptedStart(r, read, seg, k, isn, taken, finished);
      PushTakesIn(r, read, seg, k, taken);
    } else {
      SelfReassembled(r.reassembler, read, taken);
    }
  }

  lemma SelfReassembled(r: Reassembler, read: seq<byte>, taken: seq<byte>)
    requires Running(r, read) && KnownIsTaken(r, read, taken) && (r.eof ==> r.pending != map[])
    ensures Reassembled(r, r, read, taken)
  {
  }

  /** Position of the last payload byte, or the segment's own position when it carries nothing. */
  lemma PayloadEndOf(r: Receiver, seg: TcpSegment, k: nat)
    requires !seg.header.syn && SegStart(r, seg) == k && (seg.header.fin ==> k >= 1)
    ensures PayloadEnd(r, seg) == if seg.header.fin then k + |seg.payload| - 1 else k + LastOffset(|seg.payload|)
  {
  }

  lemma KnowsIsKnown(r: Reassembler, read: seq<byte>, i: nat)
    requires Running(r, read)
    ensures Knows(r, i) <==> KnownAt(r, read, i).Some?
  {
  }

  /** Reassembly leaves the window start within reach, or the payload is written in full. */
  lemma LagBound(r: Receiver, read: seq<byte>, seg: TcpSegment, k: nat,
                 isn: uint32, taken: seq<byte>, finished: bool)
    requires Faithful(r, read, isn, taken, finished) && Carries(seg, k, isn, taken, finished)
    requires r.synSet && !r.Ended() && !seg.header.syn && SegStart(r, seg) == k
    ensures var written := Reassemble(r, seg).output.writCount;
            && r.Written() <= written <= |taken|
            && (written <= WindowStart(r) + MAX_LAG || PayloadEnd(r, seg) <= written)
  {
    ReassembleKnown(r, read, seg, k, isn, taken, finished);
    AssembledBound(Reassemble(r, seg), read, taken);
    PayloadEndOf(r, seg, k);
    if FallsInWindow(r, seg) { AcceptedStart(r, read, seg, k, isn, taken, finished); }
  }

  /** Known after reassembly is what was known before or came along. */
  lemma KnownAfter(r: Receiver, read: seq<byte>, seg: TcpSegment, k: nat,
                   isn: uint32, taken: seq<byte>, finished: bool, i: nat)
    requires Faithful(r, read, isn, taken, finished) && Carries(seg, k, isn, taken, finished)
    requires r.synSet && !r.Ended() && !seg.header.syn && SegStart(r, seg) == k && FallsInWindow(r, seg)
    ensures KnownAt(Reassemble(r, seg), read, i).Some? <==> KnownOrOffered(r, seg, i)
  {
    AcceptedStart(r, read, seg, k, isn, taken, finished);
    PreviousIndex(k);
    KnownAfterAt(r, read, seg, i);
  }

  lemma KnownAfterAt(r: Receiver, read: seq<byte>, seg: TcpSegment, i: nat)
    requires Running(r.reassembler, read) && StartsInWindow(r.reassembler, seg.payload, StreamIndex(r, seg))
    requires FallsInWindow(r, seg)
    ensures KnownAt(Reassemble(r, seg), read, i).Some? <==> KnownOrOffered(r, seg, i)
  {
    KnownAfterPush(r.reassembler, read, seg.payload, StreamIndex(r, seg), seg.header.fin, i);
  }

  lemma KnownAfterPush(r: Reassembler, read: seq<byte>, data: seq<byte>, index: uint64, eof: bool, i: nat)
    requires Running(r, read) && StartsInWindow(r, data, index)
    ensures KnownAt(r.PushSubstring(data, index, eof), read, i).Some?
            <==> Knows(r, i) || OfferedAt(r, data, index, i).Some?
  {
    PushKnown(r, read, data, index, eof);
    KnowsIsKnown(r, read, i);
  }

  /** Bytes are held back exactly when something above a gap is known. */
  lemma NothingHeldIff(p: Reassembler, read: seq<byte>)
    requires |read| == p.output.readCount && p.output.writCount == |Assembled(p, read)|
    requires p.pending == map[] || Running(p, read)
    ensures p.pending == map[] <==>
            forall i: nat, j: nat | j < i :: KnownAt(p, read, i).Some? ==> KnownAt(p, read, j).Some?
  {
    if p.pending != map[] {
      var i :| i in p.pending;
      var w := |Assembled(p, read)|;
      assert KnownAt(p, read, i).Some? && KnownAt(p, read, w).None? && w < i;
    }
  }

  lemma LeavesNoGapIff(r: Receiver, read: seq<byte>, seg: TcpSegment, k: nat,
                       isn: uint32, taken: seq<byte>, finished: bool)
    requires Faithful(r, read, isn, taken, finished) && Carries(seg, k, isn, taken, finished)
    requires r.synSet && !r.Ended() && !seg.header.syn && SegStart(r, seg) == k
    ensures Reassemble(r, seg).pending == map[] <==> LeavesNoGap(r, seg)
  {
    if FallsInWindow(r, seg) {
      ReassembleKnown(r, read, seg, k, isn, taken, finished);
      var p := Reassemble(r, seg);
      AssembledBound(p, read, taken);
      NothingHeldIff(p, read);
      forall i: nat ensures KnownAt(p, read, i).Some? <==> KnownOrOffered(r, seg, i) {
        KnownAfter(r, read, seg, k, isn, taken, finished, i);
      }
      AcceptedStart(r, read, seg, k, isn, taken, finished);
      assert forall i: nat :: KnownOrOffered(r, seg, i) ==> i < RightEdge(r.reassembler);
    }
  }

  /** With nothing held back, the stream is short exactly when its last byte is missing. */
  lemma ShortIff(r: Receiver, read: seq<byte>, seg: TcpSegment, k: nat,
                 isn: uint32, taken: seq<byte>, finished: bool)
    requires Faithful(r, read, isn, taken, finished) && Carries(seg, k, isn, taken, finished)
    requires r.synSet && !r.Ended() && !seg.header.syn && SegStart(r, seg) == k && FallsInWindow(r, seg)
    requires Reassemble(r, seg).pending == map[]
    ensures var w := Reassemble(r, seg).output.writCount;
            w <= |taken| && (w < |taken| <==> |taken| > 0 && !KnownOrOffered(r, seg, |taken| - 1))
  {
    hide OfferedAt, Knows;
    ReassembleKnown(r, read, seg, k, isn, taken, finished);
    LastMissingIff(Reassemble(r, seg), read, taken);
    if |taken| > 0 { KnownAfter(r, read, seg, k, isn, taken, finished, |taken| - 1); }
  }

  lemma LastMissingIff(p: Reassembler, read: seq<byte>, taken: seq<byte>)
    requires KnownIsTaken(p, read, taken) && |read| == p.output.readCount && p.pending == map[]
    ensures var w := p.output.writCount;
            w <= |taken| && (w < |taken| <==> |taken| > 0 && KnownAt(p, read, |taken| - 1).None?)
  {
    AssembledBound(p, read, taken);
  }

  /** With nothing held back, the number is recomputed exactly when the payload is written out. */
  lemma WrittenOutIff(r: Receiver, read: seq<byte>, seg: TcpSegment, k: nat,
                      isn: uint32, taken: seq<byte>, finished: bool)
    requires Faithful(r, read, isn, taken, finished) && Carries(seg, k, isn, taken, finished)
    requires r.synSet && !r.Ended() && !seg.header.syn && SegStart(r, seg) == k
    requires Reassemble(r, seg).pending == map[]
    ensures PayloadEnd(r, seg) <= Reassemble(r, seg).output.writCount <==> WrittenOut(r, seg)
  {
    ReassembleKnown(r, read, seg, k, isn, taken, finished);
    PayloadEndOf(r, seg, k);
    if FallsInWindow(r, seg) && seg.payload != [] {
      var p := Reassemble(r, seg);
      AssembledBound(p, read, taken);
      if Fits(r, seg) {
        assert KnownAt(p, read, k + |seg.payload| - 2).Some?;
      } else {
        WrittenAfterSegment(r, read, seg, k, isn, taken, finished);
      }
    }
  }

  /** Everything that follows for an open receiver from one honest segment that it heeds. */
  ghost predicate Outcome(r: Receiver, seg: TcpSegment, taken: seq<byte>) {
    var r' := Accept(r, seg);
    var fin := if r'.finSet && LeavesNoGap(r, seg) then 1 else 0;
    && r'.finSet == (r.finSet || seg.header.fin)
    && r'.reassembler.eof == EofAfter(r, seg)
    && (r'.reassembler.pending == map[] <==> LeavesNoGap(r, seg))
    && (r'.Ended() <==> EofAfter(r, seg) && LeavesNoGap(r, seg))
    && r.Written() <= r'.Written() <= |taken|
    && WindowStart(r') == (if PayloadEnd(r, seg) <= r'.Written() then r'.Written() + 1 + fin else WindowStart(r))
    && (LeavesNoGap(r, seg) ==> (PayloadEnd(r, seg) <= r'.Written() <==> WrittenOut(r, seg)))
    && r'.checkpoint == r'.Written() && r'.isn == r.isn && r'.synSet
  }

  lemma OutcomeOfSegment(r: Receiver, read: seq<byte>, seg: TcpSegment, k: nat,
                         isn: uint32, taken: seq<byte>, finished: bool)
    requires Faithful(r, read, isn, taken, finished) && Carries(seg, k, isn, taken, finished)
    requires !r.Ended() && Heeded(r, seg) && SegStart(r, seg) == k
    ensures Outcome(r, seg, taken) && Accept(r, seg).reassembler == Reassemble(r, seg)
  {
    hide PayloadEnd, Reassemble, Carries, Running, Unwrap, LeavesNoGap, FallsInWindow, WrittenOut;
    ReassembleKnown(r, read, seg, k, isn, taken, finished);
    LagBound(r, read, seg, k, isn, taken, finished);
    LeavesNoGapIff(r, read, seg, k, isn, taken, finished);
    var p := Reassemble(r, seg);
    if p.pending == map[] { WrittenOutIff(r, read, seg, k, isn, taken, finished); }
    AcknowledgeStart(NoteFin(r.(reassembler := p), seg), PayloadEnd(r, seg), r);
  }

  /** The stream ends exactly when a FIN has been taken in whole and nothing is held back any more. */
  lemma EndsIff(r: Receiver, read: seq<byte>, seg: TcpSegment, k: nat,
                isn: uint32, taken: seq<byte>, finished: bool)
    requires Faithful(r, read, isn, taken, finished) && Carries(seg, k, isn, taken, finished)
    requires -U31 <= k - r.checkpoint < U31 && !r.Ended()
    ensures r.SegmentReceived(seg).0.Ended() <==> EndsStream(r, seg)
  {
    if Heeded(r, seg) {
      TakenBound(r, read, isn, taken, finished);
      StartOfSegment(r, seg, k, isn, taken, finished);
      OutcomeOfSegment(r, read, seg, k, isn, taken, finished);
    } else if !r.synSet && seg.header.syn {
      ReceivedSynOutput(r, seg);
    }
  }

  /** It ends with bytes missing exactly when, besides, the last byte has not come: by the FIN itself, or by
      a later segment that fills the last gap. */
  lemma EndsEarlyIff(r: Receiver, read: seq<byte>, seg: TcpSegment, k: nat,
                     isn: uint32, taken: seq<byte>, finished: bool)
    requires Faithful(r, read, isn, taken, finished) && Carries(seg, k, isn, taken, finished)
    requires -U31 <= k - r.checkpoint < U31
    ensures var r' := r.SegmentReceived(seg).0;
            r'.Ended() && r'.Written() < |taken| <==> EndsEarly(r, seg, |taken|)
  {
    if !r.Ended() {
      EndsIff(r, read, seg, k, isn, taken, finished);
      if EndsStream(r, seg) {
        TakenBound(r, read, isn, taken, finished);
        StartOfSegment(r, seg, k, isn, taken, finished);
        OutcomeOfSegment(r, read, seg, k, isn, taken, finished);
        ShortIff(r, read, seg, k, isn, taken, finished);
      }
    } else {
      EndedStays(r, read, seg, k, isn, taken, finished);
    }
  }

  /** More is acknowledged than was taken in exactly when the number is recomputed with nothing held back and a
      FIN noted that was not taken in: the FIN is counted although the stream has not ended. */
  lemma OvercountsIff(r: Receiver, read: seq<byte>, seg: TcpSegment, k: nat,
                      isn: uint32, taken: seq<byte>, finished: bool)
    requires Faithful(r, read, isn, taken, finished) && Carries(seg, k, isn, taken, finished)
    requires -U31 <= k - r.checkpoint < U31
    ensures var r' := r.SegmentReceived(seg).0;
            r'.synSet && WindowStart(r') > AckLimit(r') <==> Overcounts(r, seg)
  {
    if r.Ended() {
      EndedStays(r, read, seg, k, isn, taken, finished);
    } else if Heeded(r, seg) {
      TakenBound(r, read, isn, taken, finished);
      StartOfSegment(r, seg, k, isn, taken, finished);
      OutcomeOfSegment(r, read, seg, k, isn, taken, finished);
    } else if !r.synSet && seg.header.syn {
      FaithfulBeforeSyn(r, read, seg, k, isn, taken, finished);
    }
  }

  /** A receiver whose stream has ended is not moved by anything the peer's sender emits. */
  lemma AcceptEnded(r: Receiver, read: seq<byte>, seg: TcpSegment, k: nat,
                    isn: uint32, taken: seq<byte>, finished: bool)
    requires Faithful(r, read, isn, taken, finished) && Carries(seg, k, isn, taken, finished)
    requires r.synSet && r.Ended() && !seg.header.syn && !seg.header.fin
    requires SegStart(r, seg) == k
    ensures Accept(r, seg).reassembler == r.reassembler
    ensures Faithful(Accept(r, seg), read, isn, taken, finished)
    ensures WindowStart(Accept(r, seg)) == WindowStart(r)
  {
    PayloadEndOf(r, seg, k);
    if FallsInWindow(r, seg) {
      assert seg.payload == [];
      PushAfterEnd(r.reassembler, StreamIndex(r, seg));
    }
    assert Accept(r, seg) == Acknowledge(r, PayloadEnd(r, seg));
    AcknowledgeStart(r, PayloadEnd(r, seg), r);
  }

  lemma PushAfterEnd(r: Reassembler, index: uint64)
    requires r.output.ended && r.pending == map[] && r.nextIndex == 0
    ensures r.PushSubstring([], index, false) == r
  {
    assert StorePushed(r, [], index).pending == map[];
  }

  lemma EmptyPush(r: Reassembler, index: uint64)
    requires !r.eof && r.nextIndex !in r.pending
    ensures r.PushSubstring([], index, false) == r
  {
    assert StorePushed(r, [], index) == r;
  }

  lemma EndedStays(r: Receiver, read: seq<byte>, seg: TcpSegment, k: nat,
                   isn: uint32, taken: seq<byte>, finished: bool)
    requires Faithful(r, read, isn, taken, finished) && Carries(seg, k, isn, taken, finished)
    requires -U31 <= k - r.checkpoint < U31 && r.Ended()
    ensures var r' := r.SegmentReceived(seg).0;
            && Faithful(r', read, isn, taken, finished)
            && r'.reassembler == r.reassembler && WindowStart(r') == WindowStart(r) && AckLimit(r') == AckLimit(r)
  {
    if Heeded(r, seg) {
      TakenBound(r, read, isn, taken, finished);
      StartOfSegment(r, seg, k, isn, taken, finished);
      AcceptEnded(r, read, seg, k, isn, taken, finished);
    }
  }

  lemma OpenFaithfulIff(r: Receiver, read: seq<byte>, seg: TcpSegment, k: nat,
                        isn: uint32, taken: seq<byte>, finished: bool)
    requires Faithful(r, read, isn, taken, finished) && Carries(seg, k, isn, taken, finished)
    requires -U31 <= k - r.checkpoint < U31 && !r.Ended() && Heeded(r, seg)
    ensures Faithful(r.SegmentReceived(seg).0, read, isn, taken, finished)
            <==> !EndsEarly(r, seg, |taken|) && !Overcounts(r, seg)
  {
    EndsEarlyIff(r, read, seg, k, isn, taken, finished);
    OvercountsIff(r, read, seg, k, isn, taken, finished);
    TakenBound(r, read, isn, taken, finished);
    StartOfSegment(r, seg, k, isn, taken, finished);
    OutcomeOfSegment(r, read, seg, k, isn, taken, finished);
    ReassembleKnown(r, read, seg, k, isn, taken, finished);
    LagBound(r, read, seg, k, isn, taken, finished);
    PayloadEndOf(r, seg, k);
  }

  /** Every honest segment within 2^31, in whatever order, however often duplicated, keeps the receiver
      faithful to the stream, if and only if it neither ends the stream early nor overcounts. */
  lemma ReceivedFaithfulIff(r: Receiver, read: seq<byte>, seg: TcpSegment, k: nat,
                            isn: uint32, taken: seq<byte>, finished: bool)
    requires Faithful(r, read, isn, taken, finished) && Carries(seg, k, isn, taken, finished)
    requires -U31 <= k - r.checkpoint < U31
    ensures Faithful(r.SegmentReceived(seg).0, read, isn, taken, finished)
            <==> !EndsEarly(r, seg, |taken|) && !Overcounts(r, seg)
  {
    if r.Ended() {
      EndedStays(r, read, seg, k, isn, taken, finished);
    } else if Heeded(r, seg) {
      OpenFaithfulIff(r, read, seg, k, isn, taken, finished);
    } else if !r.synSet && seg.header.syn {
      FaithfulBeforeSyn(r, read, seg, k, isn, taken, finished);
    }
  }

  /** Nothing is taken back: bytes written, the acknowledgement number and the end only advance. */
  lemma ReceivedAdvances(r: Receiver, read: seq<byte>, seg: TcpSegment, k: nat,
                         isn: uint32, taken: seq<byte>, finished: bool)
    requires Faithful(r, read, isn, taken, finished) && Carries(seg, k, isn, taken, finished)
    requires -U31 <= k - r.checkpoint < U31
    ensures var r' := r.SegmentReceived(seg).0;
            && (r.synSet ==> r'.synSet && WindowStart(r') >= WindowStart(r))
            && r'.Written() >= r.Written() && AckLimit(r') >= AckLimit(r) && (r.Ended() ==> r'.Ended())
            && r'.reassembler.output == r.reassembler.output.(
                 buffer := r'.reassembler.output.buffer, writCount := r'.Written(), ended := r'.Ended())
  {
    if r.Ended() {
      EndedStays(r, read, seg, k, isn, taken, finished);
    } else if Heeded(r, seg) {
      TakenBound(r, read, isn, taken, finished);
      StartOfSegment(r, seg, k, isn, taken, finished);
      OutcomeOfSegment(r, read, seg, k, isn, taken, finished);
      ReassembleKnown(r, read, seg, k, isn, taken, finished);
    } else if !r.synSet && seg.header.syn {
      FaithfulBeforeSyn(r, read, seg, k, isn, taken, finished);
      ReceivedSynOutput(r, seg);
    }
  }

  lemma ReceivedSynOutput(r: Receiver, seg: TcpSegment)
    requires Untouched(r) && seg.header.syn && seg.payload == [] && !seg.header.fin
    ensures r.SegmentReceived(seg).0.reassembler == r.reassembler
  {
    var r0 := r.(isn := seg.header.seqno, ackno := seg.header.seqno, synSet := true);
    assert StorePushed(r.reassembler, [], StreamIndex(r0, seg)).pending == r.reassembler.pending;
  }

  /** The application reading from the stream changes nothing the receiver knows. */
  lemma ReadFaithful(r: Receiver, read: seq<byte>, len: nat, isn: uint32, taken: seq<byte>, finished: bool)
    requires Faithful(r, read, isn, taken, finished)
    ensures var p := r.reassembler;
            Faithful(r.(reassembler := p.(output := p.output.Pop(len))), read + p.output.Peek(len),
                     isn, taken, finished)
  {
    var output := r.reassembler.output;
    var read' := read + output.Peek(len);
    var r' := r.(reassembler := r.reassembler.(output := output.Pop(len)));
    if r.synSet {
      assert output.Peek(len) + output.Pop(len).buffer == output.buffer;
      assert Assembled(r'.reassembler, read') == Assembled(r.reassembler, read);
      forall i: nat ensures KnownAt(r'.reassembler, read', i) == KnownAt(r.reassembler, read, i) { }
    }
  }

  /** What has been read and what is waiting to be read is a prefix of the stream; all of it, once ended. */
  lemma FaithfulIsPrefix(r: Receiver, read: seq<byte>, isn: uint32, taken: seq<byte>, finished: bool)
    requires Faithful(r, read, isn, taken, finished)
    ensures Assembled(r.reassembler, read) <= taken
    ensures r.Ended() ==> finished && Assembled(r.reassembler, read) == taken
    ensures r.Written() == |Assembled(r.reassembler, read)|
  {
    var w := Assembled(r.reassembler, read);
    assert |w| == r.Written();
    if r.synSet {
      AssembledBound(r.reassembler, read, taken);
      forall i: nat | i < |w| ensures w[i] == taken[i] { assert KnownAt(r.reassembler, read, i) == Some(w[i]); }
    }
  }

  /** The stream has ended exactly when a FIN has been taken in whole and every byte is written. */
  lemma EndedIff(r: Receiver, read: seq<byte>, isn: uint32, taken: seq<byte>, finished: bool)
    requires Faithful(r, read, isn, taken, finished)
    ensures r.Ended() <==> r.reassembler.eof && r.Written() == |taken|
  {
    assert forall i: nat :: i in r.reassembler.pending ==> KnownAt(r.reassembler, read, i).Some?;
  }

  /** More of the stream being taken by the sender changes nothing for what has already arrived. */
  lemma FaithfulInExtension(r: Receiver, read: seq<byte>, isn: uint32, taken: seq<byte>, finished: bool,
                            taken': seq<byte>, finished': bool)
    requires Faithful(r, read, isn, taken, finished) && Extends(taken, finished, taken', finished')
    requires |taken'| <= MAX_STREAM
    ensures Faithful(r, read, isn, taken', finished')
  {
  }

  lemma ErrorFaithful(r: Receiver, read: seq<byte>, isn: uint32, taken: seq<byte>, finished: bool)
    requires Faithful(r, read, isn, taken, finished)
    ensures Faithful(Failed(r), read, isn, taken, finished)
  {
    forall i: nat ensures KnownAt(Failed(r).reassembler, read, i) == KnownAt(r.reassembler, read, i) { }
  }

  // ----- A FIN in good order -----

  /** A noted FIN has been taken in, and the stream's last byte is here: nothing can go wrong any more. */
  ghost predicate Assured(r: Receiver, read: seq<byte>, taken: seq<byte>) {
    r.finSet ==> r.reassembler.eof && LastByteKnown(r.reassembler, read, taken)
  }

  lemma LastByteAfter(r: Receiver, read: seq<byte>, seg: TcpSegment, k: nat,
                      isn: uint32, taken: seq<byte>, finished: bool)
    requires Faithful(r, read, isn, taken, finished) && Carries(seg, k, isn, taken, finished)
    requires !r.Ended() && Heeded(r, seg) && SegStart(r, seg) == k && seg.header.fin
    ensures Assured(Accept(r, seg), read, taken) <==> FinInOrder(r, seg)
  {
    ReassembleKnown(r, read, seg, k, isn, taken, finished);
    OutcomeOfSegment(r, read, seg, k, isn, taken, finished);
    if FallsInWindow(r, seg) && |taken| > 0 {
      KnownAfter(r, read, seg, k, isn, taken, finished, |taken| - 1);
      AcceptedStart(r, read, seg, k, isn, taken, finished);
    }
  }

  /** An honest FIN leaves the receiver assured exactly when it is in order. */
  lemma FinInOrderIff(r: Receiver, read: seq<byte>, seg: TcpSegment, k: nat,
                      isn: uint32, taken: seq<byte>, finished: bool)
    requires Faithful(r, read, isn, taken, finished) && Carries(seg, k, isn, taken, finished)
    requires -U31 <= k - r.checkpoint < U31
    requires r.synSet && !r.finSet && seg.header.fin
    ensures Assured(r.SegmentReceived(seg).0, read, taken) <==> FinInOrder(r, seg)
  {
    TakenBound(r, read, isn, taken, finished);
    StartOfSegment(r, seg, k, isn, taken, finished);
    LastByteAfter(r, read, seg, k, isn, taken, finished);
  }

  lemma AssuredAfter(r: Receiver, read: seq<byte>, seg: TcpSegment, k: nat,
                     isn: uint32, taken: seq<byte>, finished: bool)
    requires Faithful(r, read, isn, taken, finished) && Carries(seg, k, isn, taken, finished)
    requires !r.Ended() && Heeded(r, seg) && SegStart(r, seg) == k
    requires Assured(r, read, taken) && FinInOrder(r, seg)
    ensures Assured(Accept(r, seg), read, taken)
  {
    OutcomeOfSegment(r, read, seg, k, isn, taken, finished);
    if r.finSet {
      ReassembleKnown(r, read, seg, k, isn, taken, finished);
    } else if seg.header.fin {
      LastByteAfter(r, read, seg, k, isn, taken, finished);
    }
  }

  lemma AssuredIsSafe(r: Receiver, read: seq<byte>, seg: TcpSegment, k: nat,
                      isn: uint32, taken: seq<byte>, finished: bool)
    requires Faithful(r, read, isn, taken, finished) && Carries(seg, k, isn, taken, finished)
    requires !r.Ended() && Heeded(r, seg) && SegStart(r, seg) == k && Assured(Accept(r, seg), read, taken)
    ensures !EndsEarly(r, seg, |taken|) && !Overcounts(r, seg)
  {
    hide Reassemble, AckLimit;
    OutcomeOfSegment(r, read, seg, k, isn, taken, finished);
    if EndsStream(r, seg) && |taken| > 0 {
      KnownAfter(r, read, seg, k, isn, taken, finished, |taken| - 1);
    }
  }

  /** An assured receiver that takes FINs in order never ends early and never overcounts, and stays assured. */
  lemma InOrderIsSafe(r: Receiver, read: seq<byte>, seg: TcpSegment, k: nat,
                      isn: uint32, taken: seq<byte>, finished: bool)
    requires Faithful(r, read, isn, taken, finished) && Carries(seg, k, isn, taken, finished)
    requires -U31 <= k - r.checkpoint < U31
    requires Assured(r, read, taken) && FinInOrder(r, seg)
    ensures !EndsEarly(r, seg, |taken|) && !Overcounts(r, seg)
    ensures Assured(r.SegmentReceived(seg).0, read, taken)
  {
    if r.Ended() {
      EndedStays(r, read, seg, k, isn, taken, finished);
    } else if Heeded(r, seg) {
      TakenBound(r, read, isn, taken, finished);
      StartOfSegment(r, seg, k, isn, taken, finished);
      AssuredAfter(r, read, seg, k, isn, taken, finished);
      AssuredIsSafe(r, read, seg, k, isn, taken, finished);
    } else if !r.synSet && seg.header.syn {
      FaithfulBeforeSyn(r, read, seg, k, isn, taken, finished);
    }
  }

  // ----- What becomes of a FIN that is not taken in -----

  lemma {:induction false} DrainKeepsFlags(r: Reassembler)
    ensures Drain(r).eof == r.eof
    ensures Drain(r).output.ended == r.output.ended && Drain(r).output.error == r.output.error
    decreases |r.pending|
  {
    if r.nextIndex in r.pending {
      MapRemoveShrinks(r.pending, r.nextIndex);
      DrainKeepsFlags(DrainOne(r));
    }
  }

  function ReceiveAll(r: Receiver, segs: seq<TcpSegment>): Receiver
    decreases |segs|
  {
    if segs == [] then r else ReceiveAll(r, segs[..|segs| - 1]).SegmentReceived(segs[|segs| - 1]).0
  }

  /** A FIN has been noted, but not taken in. */
  predicate Missed(r: Receiver) {
    r.synSet && r.finSet && !r.reassembler.eof && !r.Ended()
  }

  /** A FIN that was noted without being taken in never ends the stream: whatever arrives afterwards,
      retransmissions of the FIN included. It is counted in the acknowledgement number all the same. */
  lemma {:induction false} MissedFinNeverEnds(r: Receiver, segs: seq<TcpSegment>)
    requires Missed(r)
    ensures Missed(ReceiveAll(r, segs))
    decreases |segs|
  {
    if segs != [] {
      MissedFinNeverEnds(r, segs[..|segs| - 1]);
      MissedStays(ReceiveAll(r, segs[..|segs| - 1]), segs[|segs| - 1]);
    }
  }

  lemma MissedStays(r: Receiver, seg: TcpSegment)
    requires Missed(r)
    ensures Missed(r.SegmentReceived(seg).0) && !EndsStream(r, seg)
  {
    if !seg.header.syn && !seg.header.fin {
      DrainKeepsFlags(StorePushed(r.reassembler, seg.payload, StreamIndex(r, seg)));
    }
  }

  /** That is what becomes of an honest FIN exactly when it misses the window or does not fit it. */
  lemma MissedFinIff(r: Receiver, read: seq<byte>, seg: TcpSegment, k: nat,
                     isn: uint32, taken: seq<byte>, finished: bool)
    requires Faithful(r, read, isn, taken, finished) && Carries(seg, k, isn, taken, finished)
    requires -U31 <= k - r.checkpoint < U31
    requires r.synSet && !r.finSet && seg.header.fin
    ensures Missed(r.SegmentReceived(seg).0) <==> !FallsInWindow(r, seg) || !Fits(r, seg)
  {
    TakenBound(r, read, isn, taken, finished);
    StartOfSegment(r, seg, k, isn, taken, finished);
    OutcomeOfSegment(r, read, seg, k, isn, taken, finished);
  }

  // ----- When the acknowledgement number goes back -----

  lemma {:induction false} DrainOnlyWrites(r: Reassembler)
    ensures Drain(r).output.writCount >= r.output.writCount
    decreases |r.pending|
  {
    if r.nextIndex in r.pending {
      MapRemoveShrinks(r.pending, r.nextIndex);
      DrainOnlyWrites(DrainOne(r));
    }
  }

  lemma ReassembleOnlyWrites(r: Receiver, seg: TcpSegment)
    ensures Reassemble(r, seg).output.writCount >= r.Written()
  {
    DrainOnlyWrites(StorePushed(r.reassembler, seg.payload, StreamIndex(r, seg)));
  }

  /** The number is at most one past the bytes written, the FIN counted once it is noted. */
  predicate CountsAtMostFin(r: Receiver) {
    r.synSet && 1 <= WindowStart(r) <= r.Written() + 1 + (if r.finSet then 1 else 0)
  }

  /** The number counts the FIN, and will be recomputed without it: nothing is written, and bytes are held. */
  predicate Uncounts(r: Receiver, seg: TcpSegment) {
    var p := Reassemble(r, seg);
    && Heeded(r, seg) && WindowStart(r) == r.Written() + 2 && PayloadEnd(r, seg) <= r.Written()
    && p.output.writCount == r.Written() && p.pending != map[]
  }

  /** For every receiver, faithful or not, and every segment: the number keeps to its bound, and it goes back
      exactly when it is uncounted, so never unless a FIN had been counted. */
  lemma NumberGoesBackIff(r: Receiver, seg: TcpSegment)
    requires CountsAtMostFin(r) && Reassemble(r, seg).output.writCount <= MAX_STREAM
    requires Reassemble(r, seg).output.writCount < WindowStart(r) + U31
    ensures var r' := r.SegmentReceived(seg).0;
            CountsAtMostFin(r') && (WindowStart(r') < WindowStart(r) <==> Uncounts(r, seg))
  {
    hide Reassemble, FallsInWindow, PayloadEnd, Unwrap;
    if Heeded(r, seg) {
      ReassembleOnlyWrites(r, seg);
      AcknowledgeStart(NoteFin(r.(reassembler := Reassemble(r, seg)), seg), PayloadEnd(r, seg), r);
    }
  }

  // ----- Exactness of the acknowledgement number -----

  /** Room for part of the payload only: the rest is cut off at the right edge. */
  predicate CutShort(r: Receiver, seg: TcpSegment) {
    && r.synSet && !r.Ended() && !seg.header.syn && !(r.finSet && seg.header.fin)
    && FallsInWindow(r, seg)
    && SegStart(r, seg) <= r.Written() + 1
    && r.Written() < RightEdge(r.reassembler) < SegStart(r, seg) - 1 + |seg.payload|
  }

  ghost predicate AckIsExact(r: Receiver) {
    r.synSet ==> WindowStart(r) == AckLimit(r)
  }

  /** In-order data is written up to the end of the segment or up to the right edge. */
  lemma WrittenAfter(r: Reassembler, read: seq<byte>, data: seq<byte>, index: uint64, eof: bool)
    requires Running(r, read) && StartsInWindow(r, data, index)
    ensures var w, w' := r.output.writCount, r.PushSubstring(data, index, eof).output.writCount;
            && (index > w ==> w' == w)
            && (index <= w ==> w' >= Min(index + |data|, RightEdge(r)))
            && (data == [] ==> w' == w)
            && w <= w' <= RightEdge(r)
  {
    PushKnown(r, read, data, index, eof);
    var p := r.PushSubstring(data, index, eof);
    var w, w' := r.output.writCount, p.output.writCount;
    assert w == |Assembled(r, read)| && w' == |Assembled(p, read)|;
    assert KnownAt(r, read, w).None?;
    assert KnownAt(p, read, w').None?;
    assert index > w ==> KnownAt(p, read, w).None?;
    assert index <= w' < Min(index + |data|, RightEdge(r)) ==> OfferedAt(r, data, index, w').Some?;
    assert RightEdge(p) == RightEdge(r);
  }

  lemma WrittenAfterSegment(r: Receiver, read: seq<byte>, seg: TcpSegment, k: nat,
                            isn: uint32, taken: seq<byte>, finished: bool)
    requires Faithful(r, read, isn, taken, finished) && Carries(seg, k, isn, taken, finished)
    requires r.synSet && !r.Ended() && !seg.header.syn && SegStart(r, seg) == k
    ensures var w, w' := r.Written(), Reassemble(r, seg).output.writCount;
            && (!FallsInWindow(r, seg) || k > w + 1 || seg.payload == [] ==> w' == w)
            && (FallsInWindow(r, seg) && k <= w + 1 ==> w' >= Min(k - 1 + |seg.payload|, RightEdge(r.reassembler)))
            && w <= w' <= RightEdge(r.reassembler)
  {
    hide Reassembler.PushSubstring;
    if FallsInWindow(r, seg) {
      PushIsReassemble(r, seg, k);
      AcceptedStart(r, read, seg, k, isn, taken, finished);
      WrittenAfter(r.reassembler, read, seg.payload, k - 1, seg.header.fin);
    }
  }

  lemma OpenExactIff(r: Receiver, read: seq<byte>, seg: TcpSegment, k: nat,
                     isn: uint32, taken: seq<byte>, finished: bool)
    requires Faithful(r, read, isn, taken, finished) && Carries(seg, k, isn, taken, finished)
    requires !r.Ended() && Heeded(r, seg) && SegStart(r, seg) == k && AckIsExact(r)
    ensures AckIsExact(Accept(r, seg)) <==>
            && !CutShort(r, seg) && !Overcounts(r, seg)
            && !(EndsStream(r, seg) && PayloadEnd(r, seg) > Accept(r, seg).Written())
  {
    OutcomeOfSegment(r, read, seg, k, isn, taken, finished);
    WrittenAfterSegment(r, read, seg, k, isn, taken, finished);
    PayloadEndOf(r, seg, k);
  }

  /** What was held back and is no longer has been written. */
  lemma ReleasedIsWritten(r: Receiver, read: seq<byte>, seg: TcpSegment, k: nat,
                          isn: uint32, taken: seq<byte>, finished: bool)
    requires Faithful(r, read, isn, taken, finished) && Carries(seg, k, isn, taken, finished)
    requires r.synSet && !r.Ended() && !seg.header.syn && SegStart(r, seg) == k
    requires r.reassembler.pending != map[] && Reassemble(r, seg).pending == map[]
    ensures Reassemble(r, seg).output.writCount > r.Written()
  {
    ReassembleKnown(r, read, seg, k, isn, taken, finished);
    var p := Reassemble(r, seg);
    AssembledBound(p, read, taken);
    var i :| i in r.reassembler.pending;
    assert KnownAt(r.reassembler, read, i).Some?;
    assert KnownAt(p, read, i).Some?;
  }

  lemma EndCounted(r: Receiver, read: seq<byte>, seg: TcpSegment, k: nat,
                   isn: uint32, taken: seq<byte>, finished: bool)
    requires Faithful(r, read, isn, taken, finished) && Carries(seg, k, isn, taken, finished)
    requires !r.Ended() && Heeded(r, seg) && SegStart(r, seg) == k && EndsStream(r, seg) && !CutShort(r, seg)
    requires seg.payload != []
    ensures Fits(r, seg)
  {
    LeavesNoGapIff(r, read, seg, k, isn, taken, finished);
    if !Fits(r, seg) {
      ReleasedIsWritten(r, read, seg, k, isn, taken, finished);
      WrittenAfterSegment(r, read, seg, k, isn, taken, finished);
    }
  }

  /** A segment that ends the stream goes unacknowledged exactly when it is a FIN without payload that ends
      it early. */
  lemma EndUncountedIff(r: Receiver, read: seq<byte>, seg: TcpSegment, k: nat,
                        isn: uint32, taken: seq<byte>, finished: bool)
    requires Faithful(r, read, isn, taken, finished) && Carries(seg, k, isn, taken, finished)
    requires !r.Ended() && Heeded(r, seg) && SegStart(r, seg) == k && EndsStream(r, seg) && !CutShort(r, seg)
    ensures PayloadEnd(r, seg) > Accept(r, seg).Written() <==> seg.payload == [] && EndsEarly(r, seg, |taken|)
  {
    if seg.payload != [] {
      EndCounted(r, read, seg, k, isn, taken, finished);
      OutcomeOfSegment(r, read, seg, k, isn, taken, finished);
    } else {
      OutcomeOfSegment(r, read, seg, k, isn, taken, finished);
      ShortIff(r, read, seg, k, isn, taken, finished);
      PayloadEndOf(r, seg, k);
      if !seg.header.fin { ReassembleKnown(r, read, seg, k, isn, taken, finished); }
    }
  }

  /** An exact acknowledgement number stays exact unless the segment is cut short at the window's edge, or
      overcounts, or is an empty FIN that ends the stream early and so goes uncounted itself. */
  lemma AckStaysExactIff(r: Receiver, read: seq<byte>, seg: TcpSegment, k: nat,
                         isn: uint32, taken: seq<byte>, finished: bool)
    requires Faithful(r, read, isn, taken, finished) && Carries(seg, k, isn, taken, finished)
    requires -U31 <= k - r.checkpoint < U31 && AckIsExact(r)
    ensures AckIsExact(r.SegmentReceived(seg).0) <==>
            && !CutShort(r, seg) && !Overcounts(r, seg)
            && !(EndsEarly(r, seg, |taken|) && seg.payload == [])
  {
    if r.Ended() {
      EndedStays(r, read, seg, k, isn, taken, finished);
    } else if Heeded(r, seg) {
      TakenBound(r, read, isn, taken, finished);
      StartOfSegment(r, seg, k, isn, taken, finished);
      OpenExactIff(r, read, seg, k, isn, taken, finished);
      if EndsStream(r, seg) && !CutShort(r, seg) { EndUncountedIff(r, read, seg, k, isn, taken, finished); }
    } else if !r.synSet && seg.header.syn {
      FaithfulBeforeSyn(r, read, seg, k, isn, taken, finished);
    }
  }

  // ----- The verdict on a segment -----

  /** The segment stands at the absolute number `k`, and the next one expected is `a`; both within reach of the
      checkpoint, so that the numbers on the wire can be told apart. */
  predicate Placed(r: Receiver, seg: TcpSegment, k: nat, a: nat) {
    && r.checkpoint <= U63 && -U31 <= k - r.checkpoint < U31 && -U31 < a - r.checkpoint < U31
    && seg.header.seqno == Wrap(k, r.isn) && r.ackno == Wrap(a, r.isn)
  }

  /** Once the SYN is in, a segment is found of use if and only if it brings the first FIN, or its first or its last
      number lies in the window, of which a closed window still has one number; never if it repeats the SYN. */
  lemma VerdictIff(r: Receiver, seg: TcpSegment, k: nat, a: nat)
    requires r.synSet && Placed(r, seg, k, a)
    ensures var end, last := a + Max(r.WindowSize(), 1), k + Max(|seg.payload|, 1) - 1;
            r.SegmentReceived(seg).1 <==>
              !seg.header.syn && if seg.header.fin then !r.finSet else a <= k < end || a <= last < end
  {
    hide Accept;
    UnwrapOfWrap(k, r.isn, r.checkpoint);
    UnwrapOfWrap(a, r.isn, r.checkpoint);
  }

  /** Before that, if and only if it is the SYN; a FIN with it counts once. */
  lemma FirstVerdictIff(r: Receiver, seg: TcpSegment)
    requires !r.synSet
    ensures r.SegmentReceived(seg).1 <==> seg.header.syn && !(r.finSet && seg.header.fin)
  {
  }

  // ----- The SYN -----

  /** What a fresh receiver makes of a SYN. Bytes on it are dropped, and with two of them or more it is not even
      acknowledged; a FIN on it ends the stream, without those bytes, as long as they would have fitted. */
  lemma SynOutcome(capacity: nat, seg: TcpSegment)
    requires seg.header.syn && capacity + 1 < U64
    ensures var n, fin, r := |seg.payload|, seg.header.fin, EmptyReceiver(capacity).SegmentReceived(seg).0;
            && r.synSet && r.isn == seg.header.seqno && r.finSet == fin && r.checkpoint == 0
            && r.ackno == (if n >= 2 then r.isn else (r.isn + 1 + (if fin then 1 else 0)) % U32)
            && (r.Ended() <==> fin && n <= capacity + 1)
            && var empty := EmptyReassembler(capacity);
               r.reassembler == empty.(eof := r.Ended(), output := empty.output.(ended := r.Ended()))
  {
    var r := EmptyReceiver(capacity).(isn := seg.header.seqno, ackno := seg.header.seqno, synSet := true);
    UnwrapOfWrap(0, r.isn, 0);
    assert Wrap(0, r.isn) == r.isn;
    assert StreamIndex(r, seg) == U64 - 1 && MaxLength(r.reassembler, U64 - 1) == capacity + 1;
    SynStoresNothing(capacity, seg.payload);
  }

  lemma SynStoresNothing(capacity: nat, data: seq<byte>)
    requires capacity + 1 < U64
    ensures var p := EmptyReassembler(capacity);
            && Settle(StorePushed(p, data, U64 - 1), data) == p
            && AcceptedLength(p, data, U64 - 1) == Min(|data|, capacity + 1)
  {
  }

  // ----- The object -----

  class TCPReceiver {
    const reassembler: StreamReassembler
    const capacity: nat
    var isn: uint32
    var synSet: bool
    var finSet: bool
    var checkpoint: nat
    var ackno: uint32

    ghost function Repr(): set<object> {
      {this, reassembler, reassembler.output}
    }

    ghost predicate Valid()
      reads Repr()
    {
      reassembler.Valid() && reassembler.capacity == capacity
    }

    function View(): Receiver
      requires reassembler.output.Valid()
      reads this, reassembler, reassembler.output
    {
      Receiver(reassembler.View(), isn, synSet, finSet, checkpoint, ackno)
    }

    constructor (capacity: nat)
      ensures Valid() && fresh(reassembler) && fresh(reassembler.output)
      ensures View() == EmptyReceiver(capacity)
    {
      reassembler := new StreamReassembler(capacity);
      this.capacity := capacity;
      isn, synSet, finSet, checkpoint, ackno := 0, false, false, 0, 0;
    }

    method WindowSize() returns (size: nat)
      requires Valid()
      ensures size == View().WindowSize()
    {
      size := capacity - |reassembler.output.buffer|;
    }

    method Ackno() returns (number: Option<uint32>)
      requires Valid()
      ensures if synSet then number == Some(ackno) else number == None
    {
      if !synSet {
        number := None;
      } else {
        number := Some(ackno);
      }
    }

    method SegmentReceived(seg: TcpSegment) returns (useful: bool)
      requires Valid()
      modifies Repr()
      ensures Valid()
      ensures (View(), useful) == old(View()).SegmentReceived(seg)
    {
      var header := seg.header;
      if !synSet {
        if !header.syn {
          return false;
        }
        isn := header.seqno;
        ackno := isn;
        synSet := true;
      } else if header.syn {
        return false;
      }
      if finSet && header.fin {
        return false;
      }
      var fallsInWindow := AcceptSegment(seg);
      useful := fallsInWindow || header.fin || header.syn;
    }

    /** Reassembly of a segment that passes the window test. */
    method AcceptSegment(seg: TcpSegment) returns (fallsInWindow: bool)
      requires Valid()
      modifies Repr()
      ensures Valid()
      ensures View() == Accept(old(View()), seg) && fallsInWindow == FallsInWindow(old(View()), seg)
    {
      var segStart, payloadEnd;
      fallsInWindow, segStart, payloadEnd := TestWindow(seg);
      if fallsInWindow {
        reassembler.PushSubstring(seg.payload, (segStart - 1) % U64, seg.header.fin);
      }
      assert View() == old(View()).(reassembler := Reassemble(old(View()), seg));
      FinishSegment(seg, payloadEnd);
    }

    /** Some part of the segment, at its start or at its end, lies between the window's edges. */
    method TestWindow(seg: TcpSegment) returns (fallsInWindow: bool, segStart: uint64, payloadEnd: nat)
      requires Valid()
      ensures fallsInWindow == FallsInWindow(View(), seg)
      ensures segStart == SegStart(View(), seg) && payloadEnd == PayloadEnd(View(), seg)
    {
      var header := seg.header;
      segStart := Unwrap(header.seqno, isn, checkpoint);
      var segEnd := segStart + (if seg.SequenceLength() > 0 then seg.SequenceLength() - 1 else 0);
      var windowStart := Unwrap(ackno, isn, checkpoint);
      var size := WindowSize();
      var windowEnd := windowStart + (if size > 0 then size - 1 else 0);
      payloadEnd := segEnd;
      if header.syn && header.fin {
        payloadEnd := if payloadEnd > 2 then payloadEnd - 2 else 0;
      } else if header.syn || header.fin {
        payloadEnd := if payloadEnd > 1 then payloadEnd - 1 else 0;
      }
      fallsInWindow := (windowStart <= segStart && segStart <= windowEnd)
                       || (payloadEnd >= windowStart && segEnd <= windowEnd);
    }

    /** The second half of `SegmentReceived`: the FIN flag and the acknowledgement number. */
    method FinishSegment(seg: TcpSegment, payloadEnd: nat)
      requires Valid()
      modifies Repr()
      ensures Valid()
      ensures View() == Acknowledge(NoteFin(old(View()), seg), payloadEnd)
    {
      hide Wrap;
      if !finSet && seg.header.fin {
        finSet := true;
        if seg.header.syn && seg.SequenceLength() == 2 {
          reassembler.output.EndInput();
        }
      }
      assert View() == NoteFin(old(View()), seg);
      checkpoint := reassembler.output.writCount;
      if payloadEnd <= checkpoint {
        var pending := reassembler.UnassembledBytes();
        ackno := Wrap(reassembler.output.writCount + (if finSet && pending == 0 then 1 else 0) + 1, isn);
      }
    }
  }
}
