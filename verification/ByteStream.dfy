/** The bounded in-order byte stream: its value, the operations on that value, and the object. */
module ByteStreams {
  import opened Base

  datatype StreamValue = StreamValue(
    capacity: nat, buffer: seq<byte>, readCount: nat, writCount: nat, ended: bool, error: bool)
  {
    /** Never over capacity, and the counters account for what is buffered. */
    predicate Consistent() {
      |buffer| <= capacity && readCount + |buffer| == writCount
    }

    predicate Eof() { buffer == [] && ended }

    function Remaining(): nat
      requires Consistent()
    {
      capacity - |buffer|
    }

    /** Accepts as many leading bytes as fit. */
    function Write(data: seq<byte>): StreamValue
      requires Consistent()
    {
      this.(buffer := buffer + data[..Min(|data|, Remaining())],
            writCount := writCount + Min(|data|, Remaining()))
    }

    function Peek(len: nat): seq<byte> {
      buffer[..Min(len, |buffer|)]
    }

    function Pop(len: nat): StreamValue {
      this.(buffer := buffer[Min(len, |buffer|)..], readCount := readCount + Min(len, |buffer|))
    }
  }

  type Stream = s: StreamValue | s.Consistent() witness StreamValue(0, [], 0, 0, false, false)

  function EmptyStream(capacity: nat): Stream {
    StreamValue(capacity, [], 0, 0, false, false)
  }

  datatype StreamOp = WriteOp(data: seq<byte>) | ReadOp(len: nat) | EndOp | ErrorOp

  /** A run of the stream: the final value, every byte accepted, every byte handed out. */
  datatype Transcript = Transcript(stream: Stream, accepted: seq<byte>, handedOut: seq<byte>)

  function RunOps(s: Stream, ops: seq<StreamOp>): Transcript
    decreases |ops|
  {
    if ops == [] then Transcript(s, [], []) else
    var before := RunOps(s, ops[..|ops| - 1]);
    var t := before.stream;
    match ops[|ops| - 1]
    case WriteOp(data) =>
      Transcript(t.Write(data), before.accepted + data[..Min(|data|, t.Remaining())], before.handedOut)
    case ReadOp(len) => Transcript(t.Pop(len), before.accepted, before.handedOut + t.Peek(len))
    case EndOp => Transcript(t.(ended := true), before.accepted, before.handedOut)
    case ErrorOp => Transcript(t.(error := true), before.accepted, before.handedOut)
  }

  /** First in, first out: what was handed out followed by what is buffered is what was accepted, in order. */
  lemma {:induction false} StreamIsFifo(capacity: nat, ops: seq<StreamOp>)
    ensures var t := RunOps(EmptyStream(capacity), ops);
            && t.handedOut + t.stream.buffer == t.accepted
            && t.stream.readCount == |t.handedOut|
            && t.stream.writCount == |t.accepted|
            && t.stream.capacity == capacity
            && |t.stream.buffer| <= capacity
    decreases |ops|
  {
    if ops != [] {
      StreamIsFifo(capacity, ops[..|ops| - 1]);
      var before := RunOps(EmptyStream(capacity), ops[..|ops| - 1]);
      match ops[|ops| - 1]
      case WriteOp(data) =>
      case ReadOp(len) =>
        assert before.stream.Peek(len) + before.stream.Pop(len).buffer == before.stream.buffer;
      case EndOp =>
      case ErrorOp =>
    }
  }

  class ByteStream {
    var buffer: seq<byte>
    const capacity: nat
    var readCount: nat
    var writCount: nat
    var ended: bool
    var error: bool

    function View(): StreamValue
      reads this
    {
      StreamValue(capacity, buffer, readCount, writCount, ended, error)
    }

    predicate Valid()
      reads this
    {
      View().Consistent()
    }

    constructor (capacity: nat)
      ensures Valid() && View() == EmptyStream(capacity)
    {
      this.capacity := capacity;
      buffer := [];
      readCount, writCount := 0, 0;
      ended, error := false, false;
    }

    method Write(data: seq<byte>) returns (length: nat)
      requires Valid()
      modifies this
      ensures Valid() && View() == old(View()).Write(data)
      ensures length == Min(|data|, old(View()).Remaining())
    {
      length := |data|;
      if length > capacity - |buffer| {
        length := capacity - |buffer|;
      }
      for i := 0 to length
        invariant buffer == old(buffer) + data[..i]
        invariant readCount == old(readCount) && writCount == old(writCount)
        invariant ended == old(ended) && error == old(error)
      {
        buffer := buffer + [data[i]];
      }
      writCount := writCount + length;
    }

    method PeekOutput(len: nat) returns (bytes: seq<byte>)
      requires Valid()
      ensures bytes == View().Peek(len)
    {
      var length := len;
      if length > |buffer| {
        length := |buffer|;
      }
      bytes := buffer[..length];
    }

    method PopOutput(len: nat)
      requires Valid()
      modifies this
      ensures Valid() && View() == old(View()).Pop(len)
    {
      var length := len;
      if length > |buffer| {
        length := |buffer|;
      }
      readCount := readCount + length;
      ghost var popped := length;
      while length > 0
        invariant 0 <= length <= popped <= |old(buffer)|
        invariant buffer == old(buffer)[popped - length..]
        invariant readCount == old(readCount) + popped && writCount == old(writCount)
        invariant ended == old(ended) && error == old(error)
      {
        buffer := buffer[1..];
        length := length - 1;
      }
    }

    method Read(len: nat) returns (bytes: seq<byte>)
      requires Valid()
      modifies this
      ensures Valid() && View() == old(View()).Pop(len)
      ensures bytes == old(View()).Peek(len)
    {
      bytes := PeekOutput(len);
      PopOutput(len);
    }

    method EndInput()
      requires Valid()
      modifies this
      ensures Valid() && View() == old(View()).(ended := true)
    {
      ended := true;
    }

    method SetError()
      requires Valid()
      modifies this
      ensures Valid() && View() == old(View()).(error := true)
    {
      error := true;
    }
  }
}
