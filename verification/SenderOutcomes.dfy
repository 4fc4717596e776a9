/** What filling the window and an acknowledgement make of a sender, in closed form. */
module SenderOutcomes {
  import opened Base
  import opened WrappingIntegers
  import opened TcpSegments
  import opened TcpSenders

  // ----- Filling -----

  function Piece(at: nat, isn: uint32, data: seq<byte>, fin: bool): TcpSegment {
    TcpSegment(DEFAULT_HEADER.(seqno := Wrap(at, isn), fin := fin), data)
  }

  /** A stretch of the stream as segments: all of them full but the last, which carries the FIN. */
  function Pieces(at: nat, isn: uint32, data: seq<byte>, fin: bool): seq<TcpSegment>
    decreases |data|
  {
    if |data| >= 1452 then [Piece(at, isn, data[..1452], false)] + Pieces(at + 1452, isn, data[1452..], fin)
    else if data != [] || fin then [Piece(at, isn, data, fin)]
    else []
  }

  /** The first `m` bytes of the stream have been sent, with the FIN behind them if `fin`. */
  predicate SendsUpTo(s: Sender, t: Sender, m: nat, fin: bool) {
    var size := m + (if fin then 1 else 0);
    && m <= |s.stream.buffer|
    && t.stream == s.stream.(buffer := s.stream.buffer[m..], readCount := s.stream.readCount + m)
    && t.finFlag == fin && t.nextSeqno == s.nextSeqno + size && t.flightBytes == s.flightBytes + size
    && t.segmentsOut == s.segmentsOut + Pieces(s.nextSeqno, s.isn, s.stream.buffer[..m], fin)
    && t == s.(stream := t.stream, finFlag := t.finFlag, nextSeqno := t.nextSeqno, flightBytes := t.flightBytes,
               segmentsOut := t.segmentsOut, outstands := t.outstands, timerStart := t.timerStart)
  }

  /** What the window lets through, of which a closed one still has one number: as many bytes as there are and fit,
      and the FIN if the stream ends there and one more number fits. */
  predicate Filled(s: Sender, t: Sender) {
    var n, room := |s.stream.buffer|, (Max(s.windowSize, 1) - (s.nextSeqno - s.ackno)) % U64;
    SendsUpTo(s, t, Min(n, room), s.stream.ended && n < room)
  }

  lemma FilledIs(s: Sender, t: Sender)
    ensures Filled(s, t) <==>
              SendsUpTo(s, t, Min(|s.stream.buffer|, Room(s)), s.stream.ended && |s.stream.buffer| < Room(s))
  {
  }

  lemma RoomShrinks(x: int, size: nat)
    requires size <= x % U64
    ensures (x - size) % U64 == x % U64 - size
  {
  }

  lemma OnePiece(at: nat, isn: uint32, data: seq<byte>, fin: bool)
    requires data != [] || fin
    requires |data| < 1452 || (|data| == 1452 && !fin)
    ensures Pieces(at, isn, data, fin) == [Piece(at, isn, data, fin)]
  {
    if |data| == 1452 {
      assert data[..1452] == data && data[1452..] == [];
      assert Pieces(at + 1452, isn, [], false) == [];
    }
  }

  lemma NoPiece(at: nat, isn: uint32)
    ensures Pieces(at, isn, [], false) == []
  {
  }

  /** One turn of the loop. */
  lemma OneChunk(s: Sender)
    requires !s.finFlag && Room(s) > 0
    ensures var c, fin := Min(|s.stream.buffer|, Min(1452, Room(s))), FinishesHere(s);
            && |Chunk(s)| == c
            && (fin <==> s.stream.ended && |s.stream.buffer| < Min(1452, Room(s)))
            && (c > 0 || fin ==>
                  SendsUpTo(s, SendChunk(s), c, fin) && Room(SendChunk(s)) == Room(s) - c - (if fin then 1 else 0))
  {
    hide Pieces;
    var c, fin := Min(|s.stream.buffer|, Min(1452, Room(s))), FinishesHere(s);
    RoomShrinks(WindowOf(s) - (s.nextSeqno - s.ackno), c + (if fin then 1 else 0));
    if c > 0 || fin { OnePiece(s.nextSeqno, s.isn, s.stream.buffer[..c], fin); }
  }

  /** What is sent in two goes, the first of which ends with a full segment or is all there is. */
  lemma SentFurther(s: Sender, t: Sender, u: Sender, c: nat, m: nat, fin: bool)
    requires SendsUpTo(s, t, c, false) && SendsUpTo(t, u, m, fin)
    requires 0 < c <= 1452 && (c == 1452 || (m == 0 && !fin))
    ensures SendsUpTo(s, u, c + m, fin)
  {
    hide Pieces;
    var buffer := s.stream.buffer;
    assert buffer[c..][m..] == buffer[c + m..] && buffer[c..][..m] == buffer[c..c + m];
    PiecesFurther(s.nextSeqno, s.isn, buffer[..c], buffer[c..c + m], fin);
    assert buffer[..c] + buffer[c..c + m] == buffer[..c + m];
  }

  lemma PiecesFurther(at: nat, isn: uint32, a: seq<byte>, b: seq<byte>, fin: bool)
    requires 0 < |a| <= 1452 && (|a| == 1452 || (b == [] && !fin))
    ensures Pieces(at, isn, a + b, fin) == Pieces(at, isn, a, false) + Pieces(at + |a|, isn, b, fin)
  {
    OnePiece(at, isn, a, false);
    if |a| == 1452 {
      assert (a + b)[..1452] == a && (a + b)[1452..] == b;
    } else {
      assert a + b == a;
      NoPiece(at + |a|, isn);
    }
  }

  lemma FilledAtLast(s: Sender)
    requires !s.finFlag && Room(s) > 0 && FinishesHere(s)
    ensures Filled(s, SendChunk(s))
  {
    hide Room, Chunk, SendChunk, FinishesHere, SendsUpTo, Filled;
    OneChunk(s);
    FilledIs(s, SendChunk(s));
  }

  lemma FilledAlready(s: Sender)
    requires !s.finFlag && (Room(s) == 0 || (Chunk(s) == [] && !FinishesHere(s)))
    ensures Filled(s, s)
  {
    if Room(s) != 0 { EmptyChunk(s); }
    assert s.stream.buffer[..0] == [];
    NoPiece(s.nextSeqno, s.isn);
  }

  lemma FilledFurther(s: Sender, u: Sender)
    requires !s.finFlag && Room(s) > 0 && Chunk(s) != [] && !FinishesHere(s) && Filled(SendChunk(s), u)
    ensures !SendChunk(s).finFlag && Filled(s, u)
  {
    hide Room, Chunk, SendChunk, FinishesHere, SendsUpTo, Filled;
    var t, n, room := SendChunk(s), |s.stream.buffer|, Room(s);
    var c := Min(n, Min(1452, room));
    OneChunk(s);
    AfterFirst(s, t, c);
    FilledIs(t, u);
    FilledIs(s, u);
    SentFurther(s, t, u, c, Min(n - c, room - c), s.stream.ended && n - c < room - c);
  }

  lemma AfterFirst(s: Sender, t: Sender, c: nat)
    requires SendsUpTo(s, t, c, false)
    ensures c <= |s.stream.buffer| && |t.stream.buffer| == |s.stream.buffer| - c
    ensures t.stream.ended == s.stream.ended && !t.finFlag
  {
  }

  lemma {:induction false} FillLoopOutcome(s: Sender)
    requires !s.finFlag
    ensures Filled(s, FillLoop(s))
    decreases |s.stream.buffer|
  {
    hide Filled;
    if Room(s) == 0 {
      FilledAlready(s);
    } else if FinishesHere(s) {
      FilledAtLast(s);
    } else if Chunk(s) == [] {
      EmptyChunk(s);
      FilledAlready(s);
    } else {
      FillLoopOutcome(SendChunk(s));
      FilledFurther(s, FillLoop(SendChunk(s)));
    }
  }

  /** Filling the window, whatever the sender: before the SYN nothing but the SYN is sent, and that only if asked
      for; behind the FIN nothing; in between what the window lets through, in full segments. */
  lemma FillOutcome(s: Sender, sendSyn: bool)
    ensures var t := s.FillWindow(sendSyn);
            if !s.synFlag then
              if sendSyn then
                var syn := TcpSegment(DEFAULT_HEADER.(seqno := Wrap(s.nextSeqno, s.isn), syn := true), []);
                t == s.(synFlag := true, segmentsOut := s.segmentsOut + [syn], nextSeqno := s.nextSeqno + 1,
                        flightBytes := s.flightBytes + 1, outstands := s.outstands[s.nextSeqno := syn],
                        timerStart := true)
              else t == s
            else if s.finFlag then t == s
            else Filled(s, t)
  {
    hide Filled;
    if s.synFlag && !s.finFlag { FillLoopOutcome(s); }
  }

  // ----- Acknowledgements and the timer -----

  ghost predicate SomeGone(s: Sender, absolute: nat) {
    exists k :: k in s.outstands && k + s.outstands[k].SequenceLength() <= absolute
  }

  /** A number that is not new changes nothing but the window. A new one starts the timer afresh, at the initial
      interval and with no retransmission counted if it acknowledges some segment in full; otherwise interval and
      count stay. */
  lemma AckTimer(s: Sender, number: uint32, window: uint16)
    requires Sound(s) && Unwrappable(s)
    ensures var t, absolute := s.AckReceived(number, window).0, Unwrap(number, s.isn, s.ackno);
            if s.ackno < absolute <= s.nextSeqno then
              && t.leftTimeout == s.initialTimeout
              && t.retransmitCount == (if SomeGone(s, absolute) then 0 else s.retransmitCount)
              && t.retransmitTimeout == (if SomeGone(s, absolute) then s.initialTimeout else s.retransmitTimeout)
            else t == s.(windowSize := window)
  {
    hide Filled, Sender.FillWindow, Sound, PopAcked;
    var absolute := Unwrap(number, s.isn, s.ackno);
    if s.ackno < absolute <= s.nextSeqno {
      FillTimer(AfterPop(s, absolute, window));
      PoppedTimer(s, absolute, window);
    }
  }

  lemma FillTimer(s: Sender)
    ensures var t := s.FillWindow(true);
            && t.leftTimeout == s.leftTimeout && t.retransmitCount == s.retransmitCount
            && t.retransmitTimeout == s.retransmitTimeout
  {
    FillOutcome(s, true);
  }

  lemma PoppedTimer(s: Sender, absolute: nat, window: uint16)
    requires Sound(s) && Unwrappable(s) && s.ackno < absolute <= s.nextSeqno
    ensures var t := AfterPop(s, absolute, window);
            && t.leftTimeout == s.initialTimeout
            && t.retransmitCount == (if SomeGone(s, absolute) then 0 else s.retransmitCount)
            && t.retransmitTimeout == (if SomeGone(s, absolute) then s.initialTimeout else s.retransmitTimeout)
  {
    hide PopAcked, Tiles, Timed, Ledger;
    var u := s.(windowSize := window, ackno := absolute, leftTimeout := s.initialTimeout);
    FlightIsSum(s);
    PopAckedExactly(u);
    var p := PopAcked(u);
    if SomeGone(s, absolute) {
      var k :| k in s.outstands && k + s.outstands[k].SequenceLength() <= absolute;
      assert k !in p.outstands;
    } else {
      assert p.outstands == u.outstands;
    }
  }
}
