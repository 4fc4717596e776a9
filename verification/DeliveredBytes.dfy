/** Which bytes a receiver hands over, whatever has happened to it before: when they are a prefix of what the
    peer's application wrote, and when they are not. */
module DeliveredBytes {
  import opened Base
  import opened WrappingIntegers
  import opened StreamReassemblers
  import opened TcpSegments
  import opened TcpReceivers
  import opened TcpSenders
  import opened ConnectionInvariants
  import opened EndToEnd

  // ----- The reassembler -----

  /** The number of bytes held without a gap from index `i` on. */
  function RunLength(held: map<nat, byte>, i: nat): nat
    decreases |held|
  {
    if i in held then
      MapRemoveShrinks(held, i);
      1 + RunLength(held - {i}, i + 1)
    else 0
  }

  ghost predicate HeldTrue(p: Reassembler, stream: seq<byte>) {
    forall i :: i in p.pending ==> i < |stream| && p.pending[i] == stream[i]
  }

  function Stretch(stream: seq<byte>, i: nat, count: nat): seq<byte> {
    if i + count <= |stream| then stream[i..i + count] else []
  }

  /** Of the bytes that draining takes, the stream accepts as many as it has room for. */
  function Accepted(p: Reassembler): nat {
    Min(RunLength(p.pending, p.nextIndex), p.output.Remaining())
  }

  lemma {:induction false} DrainWrites(p: Reassembler, stream: seq<byte>)
    requires HeldTrue(p, stream)
    ensures var d, count := Drain(p), Accepted(p);
            && HeldTrue(d, stream) && (count > 0 ==> p.nextIndex + count <= |stream|)
            && d.output == p.output.(buffer := p.output.buffer + Stretch(stream, p.nextIndex, count),
                                     writCount := p.output.writCount + count)
    decreases |p.pending|
  {
    hide Accepted;
    if p.nextIndex in p.pending {
      MapRemoveShrinks(p.pending, p.nextIndex);
      DrainWrites(DrainOne(p), stream);
      FirstStretch(p, stream);
    } else {
      NothingAccepted(p, stream);
    }
  }

  /** One byte goes to the stream, or nowhere if there is no room. */
  lemma DrainOneWrites(p: Reassembler, stream: seq<byte>)
    requires HeldTrue(p, stream) && p.nextIndex in p.pending
    ensures var once := DrainOne(p);
            if p.output.Remaining() > 0 then
              && Accepted(p) == 1 + Accepted(once)
              && once.output == p.output.(buffer := p.output.buffer + [stream[p.nextIndex]],
                                          writCount := p.output.writCount + 1)
            else Accepted(p) == Accepted(once) == 0 && once.output == p.output
  {
    var b := p.pending[p.nextIndex];
    assert [b][..1] == [b] && [b][..0] == [];
  }

  lemma FirstStretch(p: Reassembler, stream: seq<byte>)
    requires HeldTrue(p, stream) && p.nextIndex in p.pending
    requires Accepted(DrainOne(p)) > 0 ==> p.nextIndex + 1 + Accepted(DrainOne(p)) <= |stream|
    ensures var once, count, rest := DrainOne(p), Accepted(p), Accepted(DrainOne(p));
            && (count > 0 ==> p.nextIndex + count <= |stream|)
            && once.output.buffer + Stretch(stream, once.nextIndex, rest)
               == p.output.buffer + Stretch(stream, p.nextIndex, count)
            && once.output.writCount + rest == p.output.writCount + count
            && once.output == p.output.(buffer := once.output.buffer, writCount := once.output.writCount)
  {
    DrainOneWrites(p, stream);
  }

  lemma NothingAccepted(p: Reassembler, stream: seq<byte>)
    requires p.nextIndex !in p.pending
    ensures Accepted(p) == 0 && p.output.buffer + Stretch(stream, p.nextIndex, 0) == p.output.buffer
  {
  }

  /** The number of bytes a push hands on to the stream. */
  function Handed(p: Reassembler, data: seq<byte>, index: uint64): nat {
    if data != [] then Accepted(StorePushed(p, data, index)) else 0
  }

  /** Anything is handed on exactly when the next byte is held after storing and there is room. */
  lemma HandedIff(p: Reassembler, data: seq<byte>, index: uint64)
    ensures Handed(p, data, index) > 0 <==>
            data != [] && p.nextIndex in StorePushed(p, data, index).pending && p.output.Remaining() > 0
  {
  }

  lemma StoreIsTrue(p: Reassembler, data: seq<byte>, index: uint64, stream: seq<byte>)
    requires HeldTrue(p, stream) && |stream| < U64
    requires data != [] ==> index + |data| <= |stream| && data == stream[index..index + |data|]
    ensures HeldTrue(StorePushed(p, data, index), stream)
  {
    var lo, hi := Max(index, p.nextIndex), (index + AcceptedLength(p, data, index)) % U64;
    if data != [] { assert hi == index + AcceptedLength(p, data, index); }
    StoreMeaning(p.pending, data, index, lo, hi);
  }

  /** An honest push, in whatever state, hands on the stretch of the stream from the next index. */
  lemma PushWrites(p: Reassembler, data: seq<byte>, index: uint64, eof: bool, stream: seq<byte>)
    requires HeldTrue(p, stream) && |stream| < U64
    requires data != [] ==> index + |data| <= |stream| && data == stream[index..index + |data|]
    ensures var p', count := p.PushSubstring(data, index, eof), Handed(p, data, index);
            && HeldTrue(p', stream) && (count > 0 ==> p.nextIndex + count <= |stream|)
            && p'.output == p.output.(buffer := p.output.buffer + Stretch(stream, p.nextIndex, count),
                                      writCount := p.output.writCount + count, ended := p'.output.ended)
  {
    StoreIsTrue(p, data, index, stream);
    if data != [] {
      DrainWrites(StorePushed(p, data, index), stream);
    } else {
      assert p.output.buffer + [] == p.output.buffer;
    }
  }

  /** What is handed on is what belongs behind the bytes written so far. */
  predicate InPlace(p: Reassembler, data: seq<byte>, index: uint64, stream: seq<byte>) {
    var count, written := Handed(p, data, index), p.output.writCount;
    count > 0 ==>
      written + count <= |stream| && Stretch(stream, p.nextIndex, count) == Stretch(stream, written, count)
  }

  /** As it is whenever the next index is the number of bytes written. */
  lemma AlignedIsInPlace(p: Reassembler, data: seq<byte>, index: uint64, stream: seq<byte>)
    requires HeldTrue(p, stream) && |stream| < U64 && p.nextIndex == p.output.writCount
    requires data != [] ==> index + |data| <= |stream| && data == stream[index..index + |data|]
    ensures InPlace(p, data, index, stream)
  {
    PushWrites(p, data, index, false, stream);
  }

  lemma AppendedIff(w: seq<byte>, more: seq<byte>, stream: seq<byte>)
    requires w <= stream
    ensures w + more <= stream <==>
            |w| + |more| <= |stream| && more == stream[|w|..|w| + |more|]
  {
    if w + more <= stream { assert more == (w + more)[|w|..] == stream[|w|..|w| + |more|]; }
  }

  /** An honest push keeps the prefix exactly when what it hands on is in place. */
  lemma PushPlacedIff(p: Reassembler, read: seq<byte>, data: seq<byte>, index: uint64, eof: bool, stream: seq<byte>)
    requires HeldTrue(p, stream) && |stream| < U64 && |read| == p.output.readCount
    requires data != [] ==> index + |data| <= |stream| && data == stream[index..index + |data|]
    requires Assembled(p, read) <= stream
    ensures Assembled(p.PushSubstring(data, index, eof), read) <= stream <==> InPlace(p, data, index, stream)
  {
    PushWrites(p, data, index, eof, stream);
    var w, more := Assembled(p, read), Stretch(stream, p.nextIndex, Handed(p, data, index));
    assert |w| == p.output.writCount;
    assert read + (p.output.buffer + more) == w + more;
    AppendedIff(w, more, stream);
  }

  // ----- The receiver -----

  /** What is held back is true of the stream, however many bytes have been handed over and wherever. */
  ghost predicate Holds(r: Receiver, read: seq<byte>, isn: uint32, stream: seq<byte>) {
    && HeldTrue(r.reassembler, stream) && (r.synSet ==> r.isn == isn)
    && |read| == r.reassembler.output.readCount
  }

  predicate WritesInPlace(r: Receiver, seg: TcpSegment, stream: seq<byte>) {
    Heeded(r, seg) && FallsInWindow(r, seg) ==> InPlace(r.reassembler, seg.payload, StreamIndex(r, seg), stream)
  }

  lemma IndexOfSegment(r: Receiver, seg: TcpSegment, k: nat, isn: uint32, taken: seq<byte>, finished: bool)
    requires Carries(seg, k, isn, taken, finished) && |taken| <= MAX_STREAM && r.isn == isn
    requires -U31 <= k - r.checkpoint < U31
    ensures SegStart(r, seg) == k && (k >= 1 ==> StreamIndex(r, seg) == k - 1)
  {
    UnwrapOfWrap(k, isn, r.checkpoint);
    if k >= 1 { PreviousIndex(k); }
  }

  lemma AcceptedOutput(r: Receiver, seg: TcpSegment)
    ensures var p, q := Accept(r, seg).reassembler, Reassemble(r, seg);
            p == q.(output := q.output.(ended := p.output.ended)) && Accept(r, seg).isn == r.isn
  {
  }

  /** An honest segment, in whatever state: what is held stays true, and the bytes handed over stay a prefix of
      the stream exactly when it writes in place. */
  lemma ReceivedPlacedIff(r: Receiver, read: seq<byte>, seg: TcpSegment, k: nat,
                          isn: uint32, taken: seq<byte>, finished: bool, stream: seq<byte>)
    requires Holds(r, read, isn, stream) && Carries(seg, k, isn, taken, finished)
    requires taken <= stream && |taken| <= MAX_STREAM && |stream| < U64
    requires -U31 <= k - r.checkpoint < U31
    ensures var r' := r.SegmentReceived(seg).0;
            && Holds(r', read, isn, stream)
            && (Assembled(r.reassembler, read) <= stream ==>
                  (Assembled(r'.reassembler, read) <= stream <==> WritesInPlace(r, seg, stream)))
  {
    if Heeded(r, seg) {
      HeededPlacedIff(r, read, seg, k, isn, taken, finished, stream);
    } else if !r.synSet && seg.header.syn {
      var opened' := r.(isn := seg.header.seqno, ackno := seg.header.seqno, synSet := true);
      SynIsIsn(isn);
      AcceptedOutput(opened', seg);
      PushWrites(r.reassembler, [], StreamIndex(opened', seg), seg.header.fin, stream);
    }
  }

  lemma SynIsIsn(isn: uint32)
    ensures Wrap(0, isn) == isn
  {
  }

  lemma HeededPlacedIff(r: Receiver, read: seq<byte>, seg: TcpSegment, k: nat,
                        isn: uint32, taken: seq<byte>, finished: bool, stream: seq<byte>)
    requires Holds(r, read, isn, stream) && Carries(seg, k, isn, taken, finished)
    requires taken <= stream && |taken| <= MAX_STREAM && |stream| < U64
    requires -U31 <= k - r.checkpoint < U31 && Heeded(r, seg)
    ensures var r' := Accept(r, seg);
            && Holds(r', read, isn, stream)
            && (Assembled(r.reassembler, read) <= stream ==>
                  (Assembled(r'.reassembler, read) <= stream <==> WritesInPlace(r, seg, stream)))
  {
    hide Reassembler.PushSubstring, InPlace, Stretch, Handed, Acknowledge;
    IndexOfSegment(r, seg, k, isn, taken, finished);
    AcceptedOutput(r, seg);
    if FallsInWindow(r, seg) {
      var index := StreamIndex(r, seg);
      if seg.payload != [] { assert seg.payload == stream[index..index + |seg.payload|]; }
      PushWrites(r.reassembler, seg.payload, index, seg.header.fin, stream);
      if Assembled(r.reassembler, read) <= stream {
        PushPlacedIff(r.reassembler, read, seg.payload, index, seg.header.fin, stream);
      }
    }
  }

  // ----- The two-endpoint system, in every run the network can bring about -----

  ghost predicate HoldsFrom(x: Endpoint, y: Endpoint) {
    Holds(y.conn.receiver, y.read, x.conn.sender.isn, x.input)
  }

  predicate PrefixOf(x: Endpoint, y: Endpoint) {
    Assembled(y.conn.receiver.reassembler, y.read) <= x.input
  }

  /** What is delivered hands over bytes in their place, if any. */
  predicate InPlaceStep(x: Endpoint, y: Endpoint, step: Step) {
    !step.Local? && HandedOver(y.conn, CallOf(step).seg) ==>
      WritesInPlace(y.conn.receiver, CallOf(step).seg, x.input)
  }

  /** Longer input changes nothing for what was a prefix, or held back, before. */
  lemma GrownInput(x: Endpoint, x': Endpoint, y: Endpoint)
    requires HoldsFrom(x, y) && x.input <= x'.input && x'.conn.sender.isn == x.conn.sender.isn
    ensures HoldsFrom(x', y) && (PrefixOf(x, y) ==> PrefixOf(x', y))
  {
  }

  lemma InputIsSmall(x: Endpoint)
    requires Working(x)
    ensures |x.input| < U64 && TakenOf(x) <= x.input && |TakenOf(x)| <= MAX_STREAM
  {
    TakenIsSmall(x);
  }

  lemma ReadKeepsPlace(y: Endpoint, len: nat, isn: uint32, stream: seq<byte>)
    requires Holds(y.conn.receiver, y.read, isn, stream)
    ensures var y' := Perform(y, Call.Read(len));
            && Holds(y'.conn.receiver, y'.read, isn, stream)
            && Assembled(y'.conn.receiver.reassembler, y'.read) == Assembled(y.conn.receiver.reassembler, y.read)
  {
    var read, output := y.read, y.conn.receiver.reassembler.output;
    assert output.Peek(len) + output.Pop(len).buffer == output.buffer;
    assert (read + output.Peek(len)) + output.Pop(len).buffer == read + output.buffer;
  }

  lemma ReceiptStep(x: Endpoint, out: set<Packet>, y: Endpoint, step: Step)
    requires Supplied(x, out) && HoldsFrom(x, y) && Working(y) && Possible(y, out, step)
    ensures HoldsFrom(x, After(y, step))
    ensures PrefixOf(x, y) ==> (PrefixOf(x, After(y, step)) <==> InPlaceStep(x, y, step))
  {
    hide Working, InRange;
    var r, r', call, s := y.conn.receiver, After(y, step).conn.receiver, CallOf(step), x.conn.sender;
    ReceiverAfter(y, call);
    if call.Receive? && HandedOver(y.conn, call.seg) {
      var p := step.packet;
      assert Carries(p.seg, p.pos, s.isn, TakenOf(x), s.finFlag);
      InputIsSmall(x);
      ReceivedPlacedIff(r, y.read, call.seg, p.pos, s.isn, TakenOf(x), s.finFlag, x.input);
    } else if call.Read? {
      ReadKeepsPlace(y, call.len, s.isn, x.input);
    }
  }

  ghost predicate Honest(n: Net) {
    Supplied(n.a, n.fromA) && Supplied(n.b, n.fromB) && HoldsFrom(n.a, n.b) && HoldsFrom(n.b, n.a)
  }

  predicate PrefixNet(n: Net) {
    PrefixOf(n.a, n.b) && PrefixOf(n.b, n.a)
  }

  predicate InPlaceTurn(n: Net, t: Turn) {
    if t.ofA then InPlaceStep(n.b, n.a, t.step) else InPlaceStep(n.a, n.b, t.step)
  }

  lemma TurnPlacedIff(n: Net, t: Turn)
    requires Honest(n) && Allowed(n, t)
    ensures Honest(Take(n, t))
    ensures PrefixNet(n) ==> (PrefixNet(Take(n, t)) <==> InPlaceTurn(n, t))
  {
    if t.ofA {
      SupplyStep(n.a, n.fromA, CallOf(t.step));
      ReceiptStep(n.b, n.fromB, n.a, t.step);
      GrownInput(n.a, Take(n, t).a, n.b);
    } else {
      SupplyStep(n.b, n.fromB, CallOf(t.step));
      ReceiptStep(n.a, n.fromA, n.b, t.step);
      GrownInput(n.b, Take(n, t).b, n.a);
    }
  }

  predicate AlwaysPrefix(n: Net, turns: seq<Turn>)
    decreases |turns|
  {
    PrefixNet(RunFrom(n, turns)) && (turns == [] || AlwaysPrefix(n, turns[..|turns| - 1]))
  }

  predicate AllInPlace(n: Net, turns: seq<Turn>)
    decreases |turns|
  {
    turns == [] ||
    (AllInPlace(n, turns[..|turns| - 1]) && InPlaceTurn(RunFrom(n, turns[..|turns| - 1]), turns[|turns| - 1]))
  }

  lemma StartIsHonest(setupA: Setup, setupB: Setup)
    ensures Honest(Start(setupA, setupB)) && PrefixNet(Start(setupA, setupB))
  {
    NewSenderSound(setupA.sendCapacity, setupA.timeout, setupA.isn);
    NewSenderSound(setupB.sendCapacity, setupB.timeout, setupB.isn);
  }

  /** In every run that the network can bring about, harmful deliveries and forged acknowledgements included,
      what the receivers hold back is true of the streams. */
  lemma {:induction false} RunIsHonest(setupA: Setup, setupB: Setup, turns: seq<Turn>)
    requires AllAllowed(Start(setupA, setupB), turns)
    ensures Honest(RunFrom(Start(setupA, setupB), turns))
    decreases |turns|
  {
    if turns == [] {
      StartIsHonest(setupA, setupB);
    } else {
      RunIsHonest(setupA, setupB, turns[..|turns| - 1]);
      TurnPlacedIff(RunFrom(Start(setupA, setupB), turns[..|turns| - 1]), turns[|turns| - 1]);
    }
  }

  /** End-to-end prefix safety with its exact condition: over every such run, the bytes read and buffered at
      each end are at every moment a prefix of those written at the other, if and only if every delivery hands
      over its bytes in place. */
  lemma {:induction false} PrefixKeptIff(setupA: Setup, setupB: Setup, turns: seq<Turn>)
    requires AllAllowed(Start(setupA, setupB), turns)
    ensures AlwaysPrefix(Start(setupA, setupB), turns) <==> AllInPlace(Start(setupA, setupB), turns)
    decreases |turns|
  {
    if turns == [] {
      StartIsHonest(setupA, setupB);
    } else {
      var earlier, t := turns[..|turns| - 1], turns[|turns| - 1];
      PrefixKeptIff(setupA, setupB, earlier);
      RunIsHonest(setupA, setupB, earlier);
      TurnPlacedIff(RunFrom(Start(setupA, setupB), earlier), t);
    }
  }

  /** A run without a harmful delivery is such a run. */
  lemma {:induction false} GoodRunIsInPlace(setupA: Setup, setupB: Setup, turns: seq<Turn>)
    requires GoodRun(setupA, setupB, turns)
    ensures AllInPlace(Start(setupA, setupB), turns) && AlwaysPrefix(Start(setupA, setupB), turns)
    decreases |turns|
  {
    PrefixSafety(setupA, setupB, turns);
    if turns != [] { GoodRunIsInPlace(setupA, setupB, turns[..|turns| - 1]); }
    PrefixKeptIff(setupA, setupB, turns);
  }
}
