/** A complete endpoint: one receiver, one sender, and the rules that tie them together. */
module TcpConnections {
  import opened Base
  import opened TcpSegments
  import opened TcpReceivers
  import opened TcpSenders

  const MAX_RETX_ATTEMPTS := 8

  datatype Connection = Connection(
    rtTimeout: nat, receiver: Receiver, sender: Sender, segmentsOut: seq<TcpSegment>,
    linger: bool, timeSince: nat, active: bool, needSendRst: bool, waitForFinAck: bool)
  {
    predicate FirstOutstandingIsSyn() {
      sender.outstands.Keys != {} && sender.outstands[MinKey(sender.outstands)].header.syn
    }

    predicate InListen() {
      !receiver.synSet && sender.nextSeqno == 0
    }

    predicate InSynRecv() {
      receiver.synSet && !receiver.Ended() && sender.flightBytes == 1 && FirstOutstandingIsSyn()
    }

    predicate InSynSent() {
      sender.nextSeqno == 1 && sender.flightBytes == 1 && FirstOutstandingIsSyn()
    }

    /** Fills the window and moves everything the sender queued to the outbound queue. */
    function PushSegmentsOut(sendSyn: bool): Connection {
      var filled := sender.FillWindow(sendSyn || InSynRecv());
      Drained(this.(sender := filled))
    }

    function Connect(): Connection {
      this.(active := true).PushSegmentsOut(true)
    }

    function UncleanShutdown(sendRst: bool): Connection {
      if sendRst then SendReset(Fail(this)) else Fail(this)
    }

    predicate StreamsFinished() {
      sender.stream.Eof() && sender.flightBytes == 0 && receiver.Ended()
    }

    /** The resulting `active` flag is the negation of what the operation returns. */
    function CleanShutdown(): Connection {
      var c := if receiver.Ended() && !sender.stream.Eof() then this.(linger := false) else this;
      if c.StreamsFinished() && (!c.linger || timeSince >= 10 * rtTimeout) then
        c.(active := false, timeSince := 0)
      else c
    }

    function Write(data: seq<byte>): Connection {
      if data == [] then this
      else this.(sender := WriteStream(sender, data).FillWindow(true)).PushSegmentsOut(false)
    }

    function EndInputStream(): Connection {
      this.(sender := EndStream(sender), waitForFinAck := true).PushSegmentsOut(false)
    }

    function Tick(ms: nat): Connection {
      if !active then this else
      GiveUpIfExhausted(PassTime(this, ms)).PushSegmentsOut(false).CleanShutdown()
    }

    function SegmentReceived(seg: TcpSegment): Connection {
      if !active then this else
      var c := this.(timeSince := 0);
      if InListen() && seg.header.syn then
        c.(receiver := receiver.SegmentReceived(seg).0).Connect()
      else c.Sift(seg)
    }

    /** The handshake and reset rules; what none of them disposes of is processed. */
    function Sift(seg: TcpSegment): Connection {
      if InSynSent() && seg.header.ack && seg.payload != [] then this
      else if seg.header.rst then
        if InSynSent() && !seg.header.ack then this else UncleanShutdown(false)
      else if InSynRecv() && !seg.header.ack then this
      else Process(this, seg)
    }
  }

  function NewConnection(receiveCapacity: nat, sendCapacity: nat, timeout: nat, isn: uint32): Connection {
    Connection(timeout, EmptyReceiver(receiveCapacity), NewSender(sendCapacity, timeout, isn),
               [], true, 0, true, false, false)
  }

  /** Both streams are marked as failed. */
  function Fail(c: Connection): Connection {
    c.(receiver := Failed(c.receiver),
       sender := FailStream(c.sender),
       active := false)
  }

  function SendReset(c: Connection): Connection {
    c.(needSendRst := true,
       sender := if c.sender.segmentsOut == [] then c.sender.SendEmptySegment() else c.sender)
     .PushSegmentsOut(false)
  }

  function PassTime(c: Connection, ms: nat): Connection {
    c.(timeSince := c.timeSince + ms, sender := c.sender.Tick(ms))
  }

  function GiveUpIfExhausted(c: Connection): Connection {
    if c.sender.retransmitCount > MAX_RETX_ATTEMPTS then c.UncleanShutdown(true) else c
  }

  /** The acknowledgement fields of everything sent, once the peer's SYN has arrived. */
  function Stamp(seg: TcpSegment, r: Receiver, rst: bool): TcpSegment {
    var h := if r.synSet then seg.header.(ack := true, ackno := r.ackno, win := r.WindowSize() % U16) else seg.header;
    seg.(header := if rst then h.(rst := true) else h)
  }

  function MoveFirst(c: Connection): Connection
    requires c.sender.segmentsOut != []
  {
    c.(sender := c.sender.(segmentsOut := c.sender.segmentsOut[1..]),
       segmentsOut := c.segmentsOut + [Stamp(c.sender.segmentsOut[0], c.receiver, c.needSendRst)],
       needSendRst := false)
  }

  /** Moves the sender's whole queue to the outbound queue; a pending RST rides on its first segment. */
  function Drained(c: Connection): Connection
    decreases |c.sender.segmentsOut|
  {
    if c.sender.segmentsOut == [] then c else Drained(MoveFirst(c))
  }

  /** A segment without sequence space just below the window asks whether this endpoint is still alive. */
  predicate IsKeepAlive(r: Receiver, seg: TcpSegment) {
    r.synSet && seg.SequenceLength() == 0 && seg.header.seqno == (r.ackno - 1) % U32
  }

  function TakeAck(c: Connection, seg: TcpSegment): (Connection, bool) {
    if seg.header.ack then
      var (s, acceptable) := c.sender.AckReceived(seg.header.ackno, seg.header.win);
      (c.(sender := s), acceptable)
    else (c, true)
  }

  /** Acknowledgement and data are taken in; the flag says whether a reply is called for. */
  function TakeIn(c: Connection, seg: TcpSegment): (Connection, bool) {
    var (acked, acceptable) := TakeAck(c, seg);
    var (r, useful) := acked.receiver.SegmentReceived(seg);
    (acked.(receiver := r),
     (c.InSynSent() && seg.header.syn) || IsKeepAlive(c.receiver, seg)
     || !acceptable || !useful || seg.SequenceLength() > 0)
  }

  function Reply(c: Connection, wanted: bool): Connection {
    if wanted && c.sender.segmentsOut == [] && c.receiver.synSet then
      var checked := c.CleanShutdown();
      (if checked.active then checked.(sender := checked.sender.SendEmptySegment()) else checked).PushSegmentsOut(false)
    else c.PushSegmentsOut(false)
  }

  /** A segment that none of the handshake and reset rules has disposed of. */
  function Process(c: Connection, seg: TcpSegment): Connection {
    var (taken, wanted) := TakeIn(c, seg);
    var checked := taken.CleanShutdown();
    if !checked.active then checked
    else if checked.waitForFinAck && seg.header.ack && seg.SequenceLength() == 0 then
      checked.(waitForFinAck := false).PushSegmentsOut(false)
    else Reply(checked, wanted || checked.waitForFinAck || seg.header.fin)
  }

  // ----- The object -----

  class TCPConnection {
    const rtTimeout: nat
    const receiver: TCPReceiver
    const sender: TCPSender
    var segmentsOut: seq<TcpSegment>
    var linger: bool
    var timeSince: nat
    var active: bool
    var needSendRst: bool
    var waitForFinAck: bool

    ghost function Repr(): set<object> {
      {this, sender, sender.stream} + receiver.Repr()
    }

    ghost predicate Valid()
      reads Repr()
    {
      receiver.Valid() && sender.Valid() && receiver.reassembler.output != sender.stream
    }

    ghost function View(): Connection
      requires receiver.reassembler.output.Valid() && sender.stream.Valid()
      reads this, receiver, receiver.reassembler, receiver.reassembler.output, sender, sender.stream
    {
      Connection(rtTimeout, receiver.View(), sender.View(), segmentsOut,
                 linger, timeSince, active, needSendRst, waitForFinAck)
    }

    constructor (receiveCapacity: nat, sendCapacity: nat, timeout: nat, isn: uint32)
      ensures Valid() && fresh(Repr()) && View() == NewConnection(receiveCapacity, sendCapacity, timeout, isn)
    {
      rtTimeout := timeout;
      receiver := new TCPReceiver(receiveCapacity);
      sender := new TCPSender(sendCapacity, timeout, isn);
      segmentsOut, linger, timeSince := [], true, 0;
      active, needSendRst, waitForFinAck := true, false, false;
    }

    predicate FirstOutstandingIsSyn()
      reads sender
    {
      sender.outstands.Keys != {} && sender.outstands[MinKey(sender.outstands)].header.syn
    }

    predicate InListen()
      reads receiver, sender
    {
      !receiver.synSet && sender.nextSeqno == 0
    }

    predicate InSynRecv()
      reads receiver, receiver.reassembler.output, sender
    {
      && receiver.synSet && !receiver.reassembler.output.ended
      && sender.flightBytes == 1 && FirstOutstandingIsSyn()
    }

    predicate InSynSent()
      reads sender
    {
      sender.nextSeqno == 1 && sender.flightBytes == 1 && FirstOutstandingIsSyn()
    }

    method PushSegmentsOut(sendSyn: bool)
      requires Valid()
      modifies Repr()
      ensures Valid() && View() == old(View()).PushSegmentsOut(sendSyn)
    {
      sender.FillWindow(sendSyn || InSynRecv());
      DrainQueue();
    }

    /** The loop of `PushSegmentsOut`. */
    method DrainQueue()
      requires Valid()
      modifies this, sender
      ensures Valid() && View() == Drained(old(View()))
    {
      while sender.segmentsOut != []
        invariant Valid() && Drained(View()) == Drained(old(View()))
        decreases |sender.segmentsOut|
      {
        DrainFirst();
      }
    }

    method DrainFirst()
      requires Valid() && sender.segmentsOut != []
      modifies this, sender
      ensures Valid() && View() == MoveFirst(old(View()))
    {
      var seg := sender.segmentsOut[0];
      sender.segmentsOut := sender.segmentsOut[1..];
      var header := seg.header;
      var number := receiver.Ackno();
      if number.Some? {
        var size := receiver.WindowSize();
        header := header.(ack := true, ackno := number.value, win := size % U16);
      }
      if needSendRst {
        needSendRst := false;
        header := header.(rst := true);
      }
      segmentsOut := segmentsOut + [seg.(header := header)];
    }

    method Connect()
      requires Valid()
      modifies Repr()
      ensures Valid() && View() == old(View()).Connect()
    {
      if !active {
        active := true;
      }
      PushSegmentsOut(true);
    }

    method UncleanShutdown(sendRst: bool)
      requires Valid()
      modifies Repr()
      ensures Valid() && View() == old(View()).UncleanShutdown(sendRst)
    {
      MarkFailed();
      if sendRst {
        SendRst();
      }
    }

    method MarkFailed()
      requires Valid()
      modifies Repr()
      ensures Valid() && View() == Fail(old(View()))
    {
      receiver.reassembler.output.SetError();
      sender.stream.SetError();
      active := false;
    }

    method SendRst()
      requires Valid()
      modifies Repr()
      ensures Valid() && View() == SendReset(old(View()))
    {
      needSendRst := true;
      if sender.segmentsOut == [] {
        sender.SendEmptySegment();
      }
      PushSegmentsOut(false);
    }

    method CleanShutdown() returns (closed: bool)
      requires Valid()
      modifies this
      ensures Valid() && View() == old(View()).CleanShutdown() && closed == !active
    {
      if receiver.reassembler.output.ended && !sender.stream.View().Eof() {
        linger := false;
      }
      if sender.stream.View().Eof() && sender.flightBytes == 0 && receiver.reassembler.output.ended {
        if !linger || timeSince >= 10 * rtTimeout {
          active := false;
          timeSince := 0;
        }
      }
      closed := !active;
    }

    method Write(data: seq<byte>) returns (accepted: nat)
      requires Valid()
      modifies Repr()
      ensures Valid() && View() == old(View()).Write(data)
      ensures accepted == Min(|data|, old(View()).sender.stream.Remaining())
    {
      hide Sender.FillWindow, Connection.PushSegmentsOut;
      if |data| == 0 {
        return 0;
      }
      accepted := sender.stream.Write(data);
      sender.FillWindow(true);
      PushSegmentsOut(false);
    }

    method EndInputStream()
      requires Valid()
      modifies Repr()
      ensures Valid() && View() == old(View()).EndInputStream()
    {
      sender.stream.EndInput();
      waitForFinAck := true;
      PushSegmentsOut(false);
    }

    method Tick(ms: nat)
      requires Valid()
      modifies Repr()
      ensures Valid() && View() == old(View()).Tick(ms)
    {
      if !active {
        return;
      }
      AdvanceTimers(ms);
      CheckRetransmissions();
      PushSegmentsOut(false);
      var closed := CleanShutdown();
    }

    method AdvanceTimers(ms: nat)
      requires Valid()
      modifies Repr()
      ensures Valid() && View() == PassTime(old(View()), ms)
    {
      timeSince := timeSince + ms;
      sender.Tick(ms);
    }

    method CheckRetransmissions()
      requires Valid()
      modifies Repr()
      ensures Valid() && View() == GiveUpIfExhausted(old(View()))
    {
      if sender.retransmitCount > MAX_RETX_ATTEMPTS {
        UncleanShutdown(true);
      }
    }

    method SegmentReceived(seg: TcpSegment)
      requires Valid()
      modifies Repr()
      ensures Valid() && View() == old(View()).SegmentReceived(seg)
    {
      hide Accept, Connection.Sift, Connection.Connect;
      if !active {
        return;
      }
      timeSince := 0;
      if InListen() {
        if seg.header.syn {
          var useful := receiver.SegmentReceived(seg);
          Connect();
          return;
        }
      }
      SiftSegment(seg);
    }

    /** The part of `SegmentReceived` for an endpoint that has left the listening state. */
    method SiftSegment(seg: TcpSegment)
      requires Valid()
      modifies Repr()
      ensures Valid() && View() == old(View()).Sift(seg)
    {
      var reply := false;
      if InSynSent() {
        if seg.header.ack && |seg.payload| > 0 {
          return;
        }
        if seg.header.syn {
          reply := true;
        }
      }
      if seg.header.rst {
        if InSynSent() && !seg.header.ack {
          return;
        }
        UncleanShutdown(false);
        return;
      }
      if InSynRecv() {
        if !seg.header.ack {
          return;
        }
      }
      ProcessSegment(seg, reply);
    }

    /** The part of `SegmentReceived` behind the handshake and reset rules. */
    method ProcessSegment(seg: TcpSegment, synReply: bool)
      requires Valid() && synReply == (View().InSynSent() && seg.header.syn)
      modifies Repr()
      ensures Valid() && View() == Process(old(View()), seg)
    {
      hide TakeIn, Connection.PushSegmentsOut, Receiver.Ended, Reply, TcpSegment.SequenceLength, Connection.InSynSent;
      var reply := TakeSegment(seg, synReply);
      var closed := CleanShutdown();
      if closed {
        return;
      }
      if waitForFinAck && seg.header.ack && seg.SequenceLength() == 0 {
        waitForFinAck := false;
        PushSegmentsOut(false);
        return;
      }
      if waitForFinAck || seg.header.fin {
        reply := true;
      }
      SendReply(reply);
    }

    method TakeSegment(seg: TcpSegment, synReply: bool) returns (reply: bool)
      requires Valid() && synReply == (View().InSynSent() && seg.header.syn)
      modifies Repr()
      ensures Valid() && (View(), reply) == TakeIn(old(View()), seg)
    {
      hide Accept, Sender.AckReceived, Receiver.SegmentReceived;
      hide TcpSegment.SequenceLength, Connection.InSynSent, Connection.Connect;
      reply := synReply;
      var number := receiver.Ackno();
      if number.Some? && seg.SequenceLength() == 0 && seg.header.seqno == (number.value - 1) % U32 {
        reply := true;
      }
      if seg.header.ack {
        var acceptable := sender.AckReceived(seg.header.ackno, seg.header.win);
        if !acceptable {
          reply := true;
        }
      }
      var useful := receiver.SegmentReceived(seg);
      if !useful {
        reply := true;
      }
      if seg.SequenceLength() > 0 {
        reply := true;
      }
    }

    method SendReply(wanted: bool)
      requires Valid()
      modifies Repr()
      ensures Valid() && View() == Reply(old(View()), wanted)
    {
      if wanted && sender.segmentsOut == [] {
        var number := receiver.Ackno();
        if number.Some? {
          var closed := CleanShutdown();
          if !closed {
            sender.SendEmptySegment();
          }
        }
      }
      PushSegmentsOut(false);
    }
  }
}
