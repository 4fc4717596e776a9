/** Out-of-order, overlapping substrings become an in-order byte stream. */
module StreamReassemblers {
  import opened Base
  import opened ByteStreams

  datatype Reassembler = Reassembler(output: Stream, nextIndex: nat, eof: bool, pending: map<nat, byte>)
  {
    function PushSubstring(data: seq<byte>, index: uint64, eof: bool): Reassembler {
      var settled := Settle(StorePushed(this, data, index), data);
      FinishIfComplete(settled.(eof := settled.eof || (eof && AcceptedLength(this, data, index) == |data|)))
    }
  }

  function EmptyReassembler(capacity: nat): Reassembler {
    Reassembler(EmptyStream(capacity), 0, false, map[])
  }

  /** Room from `index` to the right edge, in unsigned 64-bit arithmetic: an index past the edge
      makes the difference wrap around to a huge number. */
  function MaxLength(r: Reassembler, index: uint64): nat {
    ((r.output.Remaining() + r.nextIndex - 1) % U64 - index + 1) % U64
  }

  function AcceptedLength(r: Reassembler, data: seq<byte>, index: uint64): nat {
    Min(|data|, MaxLength(r, index))
  }

  /** The byte at stream index `i` of a substring whose first byte has the given index. */
  function ByteAt(data: seq<byte>, index: nat, i: nat): byte
    requires index <= i < index + |data|
  {
    data[i - index]
  }

  /** Stores data for the indices lo..hi, never replacing a byte that is already there. */
  function Store(pending: map<nat, byte>, data: seq<byte>, index: nat, lo: nat, hi: nat): map<nat, byte>
    requires index <= lo && hi <= index + |data|
  {
    if hi <= lo then pending else
    var before := Store(pending, data, index, lo, hi - 1);
    if hi - 1 in before then before else before[hi - 1 := ByteAt(data, index, hi - 1)]
  }

  lemma {:induction false} StoreMeaning(pending: map<nat, byte>, data: seq<byte>, index: nat, lo: nat, hi: nat)
    requires index <= lo && hi <= index + |data|
    ensures var s := Store(pending, data, index, lo, hi);
            && (forall i: nat :: i in s <==> i in pending || lo <= i < hi)
            && (forall i: nat :: i in s ==> s[i] == if i in pending then pending[i] else ByteAt(data, index, i))
    decreases hi
  {
    if lo < hi { StoreMeaning(pending, data, index, lo, hi - 1); }
  }

  function DrainOne(r: Reassembler): Reassembler
    requires r.nextIndex in r.pending
  {
    r.(output := r.output.Write([r.pending[r.nextIndex]]),
       nextIndex := r.nextIndex + 1,
       pending := r.pending - {r.nextIndex})
  }

  function Drain(r: Reassembler): Reassembler
    decreases |r.pending|
  {
    if r.nextIndex in r.pending then
      MapRemoveShrinks(r.pending, r.nextIndex);
      Drain(DrainOne(r))
    else r
  }

  function StorePushed(r: Reassembler, data: seq<byte>, index: uint64): Reassembler {
    var length := AcceptedLength(r, data, index);
    r.(pending := Store(r.pending, data, index, Max(index, r.nextIndex), (index + length) % U64))
  }

  function FinishIfComplete(r: Reassembler): Reassembler {
    if r.eof && r.pending == map[] then
      r.(output := r.output.(ended := true), nextIndex := 0)
    else r
  }

  // ----- What the stored state means, up to the end of the stream -----

  /** Everything that has come out of the reassembler: read by the application, or waiting for it. */
  function Assembled(r: Reassembler, read: seq<byte>): seq<byte> {
    read + r.output.buffer
  }

  function RightEdge(r: Reassembler): nat {
    r.output.readCount + r.output.capacity
  }

  /** The byte at stream index `i`, if the reassembler holds it or has passed it on. */
  function KnownAt(r: Reassembler, read: seq<byte>, i: nat): Option<byte> {
    var w := Assembled(r, read);
    if i < |w| then Some(w[i]) else if i in r.pending then Some(r.pending[i]) else None
  }

  ghost predicate Bounded(r: Reassembler, read: seq<byte>) {
    && |read| == r.output.readCount
    && r.nextIndex == r.output.writCount
    && forall k :: k in r.pending ==> r.nextIndex <= k < RightEdge(r)
  }

  ghost predicate Running(r: Reassembler, read: seq<byte>) {
    && Bounded(r, read)
    && !r.output.ended
    && r.nextIndex !in r.pending
  }

  /** The substring starts inside the window and does not reach the end of the 64-bit index space. */
  predicate StartsInWindow(r: Reassembler, data: seq<byte>, index: uint64) {
    && index <= RightEdge(r)
    && index + |data| < U64
    && RightEdge(r) < U64
  }

  /** The byte stream accepts the byte in full, because the index lies below the right edge. */
  lemma DrainOneKeepsKnown(r: Reassembler, read: seq<byte>)
    requires Bounded(r, read) && r.nextIndex in r.pending
    ensures var d := DrainOne(r);
            && Bounded(d, read)
            && d.output == r.output.(buffer := r.output.buffer + [r.pending[r.nextIndex]],
                                     writCount := r.output.writCount + 1)
            && forall i: nat :: KnownAt(d, read, i) == KnownAt(r, read, i)
  {
    var b := r.pending[r.nextIndex];
    assert r.output.Remaining() > 0;
    assert [b][..1] == [b];
    var w := read + r.output.buffer;
    assert read + (r.output.buffer + [b]) == w + [b];
  }

  /** What stays the same when bytes move from the pending map to the stream. */
  ghost predicate OnlyAdvances(r: Reassembler, d: Reassembler) {
    && d.eof == r.eof && d.nextIndex >= r.nextIndex
    && d.output == r.output.(buffer := d.output.buffer, writCount := d.output.writCount)
    && r.output.buffer <= d.output.buffer
  }

  /** Draining moves bytes from the pending map to the stream and loses none of them. */
  lemma {:induction false} DrainKeepsKnown(r: Reassembler, read: seq<byte>)
    requires Bounded(r, read)
    ensures var d := Drain(r);
            && Bounded(d, read) && d.nextIndex !in d.pending
            && OnlyAdvances(r, d)
            && forall i: nat :: KnownAt(d, read, i) == KnownAt(r, read, i)
    decreases |r.pending|
  {
    if r.nextIndex in r.pending {
      MapRemoveShrinks(r.pending, r.nextIndex);
      DrainOneKeepsKnown(r, read);
      DrainKeepsKnown(DrainOne(r), read);
      forall i: nat ensures KnownAt(Drain(r), read, i) == KnownAt(r, read, i) {
        assert KnownAt(DrainOne(r), read, i) == KnownAt(r, read, i);
      }
    }
  }

  lemma MaxLengthInWindow(r: Reassembler, index: uint64)
    requires r.nextIndex == r.output.writCount && index <= RightEdge(r) < U64
    ensures MaxLength(r, index) == RightEdge(r) - index
  {
    var free := r.output.Remaining();
    assert free + r.nextIndex == RightEdge(r);
    if RightEdge(r) == 0 {
      assert (free + r.nextIndex - 1) % U64 == U64 - 1;
    }
  }

  /** The byte that a push offers for stream index `i`, within the window. */
  function OfferedAt(r: Reassembler, data: seq<byte>, index: uint64, i: nat): Option<byte> {
    if index <= i < index + Min(|data|, Max(0, RightEdge(r) - index)) then Some(ByteAt(data, index, i)) else None
  }

  lemma AcceptedInWindow(r: Reassembler, data: seq<byte>, index: uint64)
    requires r.nextIndex == r.output.writCount && StartsInWindow(r, data, index)
    ensures AcceptedLength(r, data, index) == Min(|data|, RightEdge(r) - index)
    ensures (index + AcceptedLength(r, data, index)) % U64 == index + AcceptedLength(r, data, index)
  {
    MaxLengthInWindow(r, index);
  }

  lemma StoreKnown(r: Reassembler, read: seq<byte>, data: seq<byte>, index: uint64)
    requires Running(r, read) && StartsInWindow(r, data, index)
    ensures var s := StorePushed(r, data, index);
            && Bounded(s, read)
            && s == r.(pending := s.pending)
            && forall i: nat :: KnownAt(s, read, i) ==
                 if KnownAt(r, read, i).Some? then KnownAt(r, read, i) else OfferedAt(r, data, index, i)
  {
    hide Store;
    AcceptedInWindow(r, data, index);
    var hi := index + AcceptedLength(r, data, index);
    StoreMeaning(r.pending, data, index, Max(index, r.nextIndex), hi);
  }

  lemma FinishKeepsKnown(d: Reassembler, read: seq<byte>)
    requires Bounded(d, read) && d.nextIndex !in d.pending && !d.output.ended
    ensures var p := FinishIfComplete(d);
            && (p.output.ended <==> p.eof && p.pending == map[])
            && (if p.output.ended then p.nextIndex == 0 else Running(p, read))
            && p.output == d.output.(ended := p.output.ended)
            && p.eof == d.eof && p.pending == d.pending
            && forall i: nat :: KnownAt(p, read, i) == KnownAt(d, read, i)
  {
  }

  function Settle(s: Reassembler, data: seq<byte>): Reassembler {
    if data != [] then Drain(s) else s
  }

  lemma SettleKnown(r: Reassembler, read: seq<byte>, data: seq<byte>, index: uint64)
    requires Running(r, read) && StartsInWindow(r, data, index)
    ensures var d := Settle(StorePushed(r, data, index), data);
            && Bounded(d, read) && d.nextIndex !in d.pending && !d.output.ended
            && OnlyAdvances(r, d)
            && forall i: nat :: KnownAt(d, read, i) ==
                 if KnownAt(r, read, i).Some? then KnownAt(r, read, i) else OfferedAt(r, data, index, i)
  {
    var s := StorePushed(r, data, index);
    StoreKnown(r, read, data, index);
    if data == [] {
      assert s.pending == r.pending;
    } else {
      DrainKeepsKnown(s, read);
      forall i: nat ensures KnownAt(Drain(s), read, i) ==
        if KnownAt(r, read, i).Some? then KnownAt(r, read, i) else OfferedAt(r, data, index, i)
      {
        assert KnownAt(Drain(s), read, i) == KnownAt(s, read, i);
      }
    }
  }

  /** A push adds what fits the window, first come first kept, and nothing else. */
  lemma PushKnown(r: Reassembler, read: seq<byte>, data: seq<byte>, index: uint64, eof: bool)
    requires Running(r, read) && StartsInWindow(r, data, index)
    ensures var p := r.PushSubstring(data, index, eof);
            && (forall i: nat :: KnownAt(p, read, i) ==
                 if KnownAt(r, read, i).Some? then KnownAt(r, read, i) else OfferedAt(r, data, index, i))
            && p.eof == (r.eof || (eof && index + |data| <= RightEdge(r)))
            && (p.output.ended <==> p.eof && p.pending == map[])
            && (if p.output.ended then p.nextIndex == 0 else Running(p, read))
            && p.output == r.output.(buffer := p.output.buffer, writCount := p.output.writCount,
                                     ended := p.output.ended)
            && r.output.buffer <= p.output.buffer
  {
    SettleKnown(r, read, data, index);
    AcceptedInWindow(r, data, index);
    var settled := Settle(StorePushed(r, data, index), data);
    var d := settled.(eof := r.eof || (eof && AcceptedLength(r, data, index) == |data|));
    FinishKeepsKnown(d, read);
    assert r.PushSubstring(data, index, eof) == FinishIfComplete(d);
    forall i: nat ensures KnownAt(FinishIfComplete(d), read, i) ==
      if KnownAt(r, read, i).Some? then KnownAt(r, read, i) else OfferedAt(r, data, index, i)
    {
      assert KnownAt(d, read, i) == KnownAt(settled, read, i);
    }
  }

  /** Held and buffered bytes together never exceed the capacity. */
  lemma CapacityRespected(r: Reassembler, read: seq<byte>)
    requires Running(r, read)
    ensures |r.output.buffer| + |r.pending| <= r.output.capacity
    ensures forall k :: k in r.pending ==> r.nextIndex < k < RightEdge(r)
  {
    assert |r.pending.Keys| == |r.pending|;
    IntervalSetSize(r.pending.Keys, r.nextIndex, RightEdge(r));
  }

  /** Pushes that keep the held bytes below the right edge: exactly those that start within the
      window or carry nothing. Past the edge the unsigned room wraps and nothing is cut off. */
  lemma EdgeRespectedIff(r: Reassembler, read: seq<byte>, data: seq<byte>, index: uint64, eof: bool)
    requires Running(r, read) && index + |data| < U64 && RightEdge(r) < U64
    ensures (forall k :: k in r.PushSubstring(data, index, eof).pending ==> k < RightEdge(r))
            <==> (data == [] || index <= RightEdge(r))
  {
    if index <= RightEdge(r) {
      PushKnown(r, read, data, index, eof);
    } else if data == [] {
      assert StorePushed(r, data, index).pending == r.pending;
    } else {
      PastEdgeIsStored(r, read, data, index);
      assert index in r.PushSubstring(data, index, eof).pending;
    }
  }

  lemma PastEdgeIsStored(r: Reassembler, read: seq<byte>, data: seq<byte>, index: uint64)
    requires Running(r, read) && index + |data| < U64 && RightEdge(r) < index && data != []
    ensures index in StorePushed(r, data, index).pending && r.nextIndex !in StorePushed(r, data, index).pending
  {
    assert MaxLength(r, index) == RightEdge(r) - index + U64 by {
      assert r.output.Remaining() + r.nextIndex == RightEdge(r);
    }
    StoreMeaning(r.pending, data, index, index, index + |data|);
  }

  /** An empty last substring ends the stream at once if nothing is held back, wherever it claims to be. */
  lemma EmptyLastPushEndsIff(r: Reassembler, read: seq<byte>, index: uint64)
    requires Running(r, read)
    ensures r.PushSubstring([], index, true).output.ended <==> r.pending == map[]
    ensures r.PushSubstring([], index, true).eof
  {
    assert StorePushed(r, [], index).pending == r.pending;
  }

  // ----- Whole runs: the functional specification and order independence -----

  datatype Action = Push(data: seq<byte>, index: uint64, last: bool) | Read(len: nat)

  datatype Progress = Progress(r: Reassembler, read: seq<byte>)

  function Act(p: Progress, a: Action): Progress {
    match a
    case Push(data, index, last) => Progress(p.r.PushSubstring(data, index, last), p.read)
    case Read(len) => Progress(p.r.(output := p.r.output.Pop(len)), p.read + p.r.output.Peek(len))
  }

  function Run(capacity: nat, actions: seq<Action>): Progress
    decreases |actions|
  {
    if actions == [] then Progress(EmptyReassembler(capacity), [])
    else Act(Run(capacity, actions[..|actions| - 1]), actions[|actions| - 1])
  }

  /** Every push started inside the window of its moment. */
  predicate AllInWindow(capacity: nat, actions: seq<Action>)
    decreases |actions|
  {
    actions == [] ||
    var earlier, a := actions[..|actions| - 1], actions[|actions| - 1];
    && AllInWindow(capacity, earlier)
    && (a.Push? ==> StartsInWindow(Run(capacity, earlier).r, a.data, a.index))
  }

  /** The reference: the byte at `i` of the earliest push that offered one within its window. */
  function EarliestByte(capacity: nat, actions: seq<Action>, i: nat): Option<byte>
    decreases |actions|
  {
    if actions == [] then None else
    var earlier, a := actions[..|actions| - 1], actions[|actions| - 1];
    var known := EarliestByte(capacity, earlier, i);
    if known.Some? then known
    else if a.Push? then OfferedAt(Run(capacity, earlier).r, a.data, a.index, i)
    else None
  }

  lemma {:induction false} EndedStaysEnded(capacity: nat, actions: seq<Action>)
    requires |actions| > 0 && Run(capacity, actions[..|actions| - 1]).r.output.ended
    ensures Run(capacity, actions).r.output.ended
  {
    var before := Run(capacity, actions[..|actions| - 1]).r;
    match actions[|actions| - 1]
    case Push(data, index, last) => DrainKeepsEnded(StorePushed(before, data, index));
    case Read(len) =>
  }

  lemma {:induction false} DrainKeepsEnded(r: Reassembler)
    requires r.output.ended
    ensures Drain(r).output.ended
    decreases |r.pending|
  {
    if r.nextIndex in r.pending {
      MapRemoveShrinks(r.pending, r.nextIndex);
      DrainKeepsEnded(DrainOne(r));
    }
  }

  lemma ReadKeepsKnown(r: Reassembler, read: seq<byte>, len: nat)
    requires Bounded(r, read)
    ensures var q := r.(output := r.output.Pop(len));
            && Bounded(q, read + r.output.Peek(len))
            && Assembled(q, read + r.output.Peek(len)) == Assembled(r, read)
            && forall i: nat :: KnownAt(q, read + r.output.Peek(len), i) == KnownAt(r, read, i)
  {
    assert r.output.Peek(len) + r.output.Pop(len).buffer == r.output.buffer;
    assert (read + r.output.Peek(len)) + r.output.Pop(len).buffer == read + r.output.buffer;
  }

  /** Until the stream ends, the state is determined by the earliest covering pushes alone. */
  lemma {:induction false} RunMeansEarliestBytes(capacity: nat, actions: seq<Action>)
    requires AllInWindow(capacity, actions) && !Run(capacity, actions).r.output.ended
    ensures var p := Run(capacity, actions);
            && Running(p.r, p.read)
            && forall i: nat :: KnownAt(p.r, p.read, i) == EarliestByte(capacity, actions, i)
    decreases |actions|
  {
    if actions != [] {
      var earlier, a := actions[..|actions| - 1], actions[|actions| - 1];
      var before := Run(capacity, earlier);
      if before.r.output.ended { EndedStaysEnded(capacity, actions); }
      RunMeansEarliestBytes(capacity, earlier);
      match a
      case Push(data, index, last) => PushKnown(before.r, before.read, data, index, last);
      case Read(len) => ReadKeepsKnown(before.r, before.read, len);
      var after := Run(capacity, actions);
      assert after == Act(before, a);
      forall i: nat ensures KnownAt(after.r, after.read, i) == EarliestByte(capacity, actions, i) {
        assert KnownAt(before.r, before.read, i) == EarliestByte(capacity, earlier, i);
      }
    }
  }

  /** `bytes_written` is the smallest index never covered; what is held lies above it. */
  lemma FirstGap(capacity: nat, actions: seq<Action>)
    requires AllInWindow(capacity, actions) && !Run(capacity, actions).r.output.ended
    ensures var p := Run(capacity, actions);
            var w := Assembled(p.r, p.read);
            && p.r.output.writCount == |w|
            && (forall i: nat :: i < |w| ==> EarliestByte(capacity, actions, i) == Some(w[i]))
            && EarliestByte(capacity, actions, |w|) == None
            && (forall i: nat :: i in p.r.pending ==>
                  i > |w| && EarliestByte(capacity, actions, i) == Some(p.r.pending[i]))
            && (forall i: nat :: i > |w| && EarliestByte(capacity, actions, i).Some? ==> i in p.r.pending)
  {
    RunMeansEarliestBytes(capacity, actions);
    var p := Run(capacity, actions);
    assert KnownAt(p.r, p.read, |Assembled(p.r, p.read)|) == None;
  }

  /** Every substring is an excerpt of one stream. */
  predicate Excerpts(actions: seq<Action>, stream: seq<byte>) {
    forall a :: a in actions && a.Push? ==>
      a.index + |a.data| <= |stream| && a.data == stream[a.index..a.index + |a.data|]
  }

  lemma {:induction false} ExcerptByte(capacity: nat, actions: seq<Action>, stream: seq<byte>, i: nat)
    requires Excerpts(actions, stream) && EarliestByte(capacity, actions, i).Some?
    ensures i < |stream| && EarliestByte(capacity, actions, i) == Some(stream[i])
    decreases |actions|
  {
    var earlier, a := actions[..|actions| - 1], actions[|actions| - 1];
    assert a in actions;
    if EarliestByte(capacity, earlier, i).Some? {
      assert forall b :: b in earlier ==> b in actions;
      ExcerptByte(capacity, earlier, stream, i);
    }
  }

  lemma SameEarliest(capacity1: nat, actions1: seq<Action>, capacity2: nat, actions2: seq<Action>, stream: seq<byte>)
    requires Excerpts(actions1, stream) && Excerpts(actions2, stream)
    requires forall i: nat :: EarliestByte(capacity1, actions1, i).Some? <==> EarliestByte(capacity2, actions2, i).Some?
    ensures forall i: nat :: EarliestByte(capacity1, actions1, i) == EarliestByte(capacity2, actions2, i)
  {
    forall i: nat ensures EarliestByte(capacity1, actions1, i) == EarliestByte(capacity2, actions2, i) {
      if EarliestByte(capacity1, actions1, i).Some? {
        ExcerptByte(capacity1, actions1, stream, i);
        ExcerptByte(capacity2, actions2, stream, i);
      }
    }
  }

  lemma AssembledIsPrefix(capacity: nat, actions: seq<Action>, stream: seq<byte>)
    requires AllInWindow(capacity, actions) && !Run(capacity, actions).r.output.ended && Excerpts(actions, stream)
    ensures Assembled(Run(capacity, actions).r, Run(capacity, actions).read) <= stream
  {
    FirstGap(capacity, actions);
    var p := Run(capacity, actions);
    var w := Assembled(p.r, p.read);
    forall i: nat | i < |w| ensures i < |stream| && w[i] == stream[i] {
      ExcerptByte(capacity, actions, stream, i);
    }
    if |w| > 0 { ExcerptByte(capacity, actions, stream, |w| - 1); }
  }

  lemma SamePending(m1: map<nat, byte>, m2: map<nat, byte>, n: nat,
                    capacity1: nat, actions1: seq<Action>, capacity2: nat, actions2: seq<Action>)
    requires forall i: nat :: EarliestByte(capacity1, actions1, i) == EarliestByte(capacity2, actions2, i)
    requires forall i: nat :: i in m1 ==> i > n && EarliestByte(capacity1, actions1, i) == Some(m1[i])
    requires forall i: nat :: i > n && EarliestByte(capacity1, actions1, i).Some? ==> i in m1
    requires forall i: nat :: i in m2 ==> i > n && EarliestByte(capacity2, actions2, i) == Some(m2[i])
    requires forall i: nat :: i > n && EarliestByte(capacity2, actions2, i).Some? ==> i in m2
    ensures m1 == m2
  {
    forall i: nat ensures i in m1 <==> i in m2 {
      assert EarliestByte(capacity1, actions1, i) == EarliestByte(capacity2, actions2, i);
    }
  }

  lemma SameLength(n1: nat, n2: nat, capacity1: nat, actions1: seq<Action>, capacity2: nat, actions2: seq<Action>)
    requires forall i: nat :: EarliestByte(capacity1, actions1, i) == EarliestByte(capacity2, actions2, i)
    requires forall i: nat :: i < n1 ==> EarliestByte(capacity1, actions1, i).Some?
    requires forall i: nat :: i < n2 ==> EarliestByte(capacity2, actions2, i).Some?
    requires EarliestByte(capacity1, actions1, n1) == None && EarliestByte(capacity2, actions2, n2) == None
    ensures n1 == n2
  {
  }

  /** Arrival order, overlap and duplication do not matter: two runs over excerpts of one stream
      that covered the same indices have assembled the same bytes and hold the same bytes. */
  lemma OrderIndependence(capacity1: nat, actions1: seq<Action>, capacity2: nat, actions2: seq<Action>,
                          stream: seq<byte>)
    requires AllInWindow(capacity1, actions1) && AllInWindow(capacity2, actions2)
    requires Excerpts(actions1, stream) && Excerpts(actions2, stream)
    requires !Run(capacity1, actions1).r.output.ended && !Run(capacity2, actions2).r.output.ended
    requires forall i: nat :: EarliestByte(capacity1, actions1, i).Some? <==> EarliestByte(capacity2, actions2, i).Some?
    ensures var p1, p2 := Run(capacity1, actions1), Run(capacity2, actions2);
            && Assembled(p1.r, p1.read) == Assembled(p2.r, p2.read)
            && Assembled(p1.r, p1.read) <= stream
            && p1.r.pending == p2.r.pending
  {
    var p1, p2 := Run(capacity1, actions1), Run(capacity2, actions2);
    var w1, w2 := Assembled(p1.r, p1.read), Assembled(p2.r, p2.read);
    SameEarliest(capacity1, actions1, capacity2, actions2, stream);
    assert |w1| == |w2| && p1.r.pending == p2.r.pending by {
      FirstGap(capacity1, actions1);
      FirstGap(capacity2, actions2);
      SameLength(|w1|, |w2|, capacity1, actions1, capacity2, actions2);
      SamePending(p1.r.pending, p2.r.pending, |w1|, capacity1, actions1, capacity2, actions2);
    }
    AssembledIsPrefix(capacity1, actions1, stream);
    AssembledIsPrefix(capacity2, actions2, stream);
    assert w1 == stream[..|w1|] && w2 == stream[..|w2|];
  }

  // ----- The object -----

  class StreamReassembler {
    const output: ByteStream
    const capacity: nat
    var nextIndex: nat
    var eof: bool
    var buffer: map<nat, byte>

    function View(): Reassembler
      requires output.Valid()
      reads this, output
    {
      Reassembler(output.View(), nextIndex, eof, buffer)
    }

    ghost predicate Valid()
      reads this, output
    {
      && output.Valid()
      && output.capacity == capacity
      && forall k :: k in buffer ==> nextIndex <= k
    }

    constructor (capacity: nat)
      ensures Valid() && fresh(output) && View() == EmptyReassembler(capacity)
      ensures this.capacity == capacity
    {
      output := new ByteStream(capacity);
      this.capacity := capacity;
      nextIndex, eof, buffer := 0, false, map[];
    }

    method PushSubstring(data: seq<byte>, index: uint64, eof: bool)
      requires Valid()
      modifies this, output
      ensures Valid() && View() == old(View()).PushSubstring(data, index, eof)
    {
      hide Store, Drain;
      var length := |data|;
      var windows := (capacity - |output.buffer| + nextIndex - 1) % U64;
      var maxLength := (windows - index + 1) % U64;
      if length > maxLength {
        length := maxLength;
      }
      ghost var was := View();
      assert length == AcceptedLength(was, data, index);
      StoreLoop(data, index, length);
      ghost var stored := View();
      assert stored == StorePushed(was, data, index);
      if |data| != 0 {
        DrainLoop();
      }
      ghost var settled := View();
      assert settled == Settle(stored, data);
      if eof && length == |data| {
        this.eof := true;
      }
      ghost var marked := settled.(eof := settled.eof || (eof && length == |data|));
      assert View() == marked && was.PushSubstring(data, index, eof) == FinishIfComplete(marked);
      if this.eof && buffer == map[] {
        output.EndInput();
        buffer := map[];
        nextIndex := 0;
      }
    }

    /** The first loop of the push. */
    method StoreLoop(data: seq<byte>, index: uint64, length: nat)
      requires Valid() && length <= |data|
      modifies this`buffer
      ensures Valid()
      ensures View() == old(View()).(pending :=
                Store(old(buffer), data, index, Max(index, nextIndex), (index + length) % U64))
    {
      var i: nat := index;
      if index < nextIndex {
        i := nextIndex;
      }
      ghost var lo, was := i, buffer;
      var stop: nat := (index + length) % U64;
      assert stop <= index + length;
      while i < stop
        invariant lo <= i && (i <= stop || i == lo)
        invariant buffer == Store(was, data, index, lo, Min(i, stop))
        invariant forall k :: k in buffer ==> nextIndex <= k
      {
        if i !in buffer {
          buffer := buffer[i := data[i - index]];
        }
        i := i + 1;
      }
    }

    /** The second loop of the push: the map's first key is compared with the next index. */
    method DrainLoop()
      requires Valid()
      modifies this, output
      ensures Valid() && View() == Drain(old(View()))
    {
      while buffer.Keys != {} && MinKey(buffer) == nextIndex
        invariant Valid() && Drain(View()) == Drain(old(View()))
        decreases |buffer|
      {
        var next := nextIndex;
        MapRemoveShrinks(buffer, next);
        nextIndex := nextIndex + 1;
        var accepted := output.Write([buffer[next]]);
        buffer := buffer - {next};
      }
      assert nextIndex !in buffer;
    }

    method UnassembledBytes() returns (n: nat)
      requires Valid()
      ensures n == |View().pending|
    {
      n := |buffer|;
    }
  }
}
