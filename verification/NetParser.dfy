/** Big-endian integers taken from and appended to byte strings. */
module NetParsers {
  import opened Base

  datatype ParseResult =
    NoError | BadChecksum | PacketTooShort | WrongIPVersion | HeaderTooShort | TruncatedPacket | Unsupported

  /** The number of values that `n` bytes can take. */
  function Pow256(n: nat): (p: nat)
    ensures p >= 1
  {
    Pow2(8 * n)
  }

  lemma OneMoreByte(n: nat)
    ensures Pow256(n + 1) == 0x100 * Pow256(n)
  {
    var m := 8 * n;
    assert Pow2(m + 2) == 4 * Pow2(m);
    assert Pow2(m + 4) == 4 * Pow2(m + 2);
    assert Pow2(m + 6) == 4 * Pow2(m + 4);
    assert Pow2(m + 8) == 4 * Pow2(m + 6);
  }

  function BigEndian(bytes: seq<byte>): nat {
    if bytes == [] then 0 else BigEndian(bytes[..|bytes| - 1]) * 0x100 + bytes[|bytes| - 1]
  }

  /** The `len` low-order bytes of a number, most significant first. */
  function Unparse(val: nat, len: nat): (bytes: seq<byte>)
    ensures |bytes| == len
  {
    if len == 0 then [] else Unparse(val / 0x100, len - 1) + [val % 0x100]
  }

  /** What is left to read, and the first error met. */
  datatype Parser = Parser(buffer: seq<byte>, error: ParseResult)
  {
    function CheckSize(size: nat): Parser {
      if size > |buffer| then this.(error := PacketTooShort) else this
    }

    function ParseInt(len: nat): (nat, Parser) {
      var p := CheckSize(len);
      if p.error != NoError then (0, p) else (BigEndian(buffer[..len]), p.(buffer := buffer[len..]))
    }

    function RemovePrefix(n: nat): Parser {
      var p := CheckSize(n);
      if p.error != NoError then p else p.(buffer := buffer[n..])
    }
  }

  lemma {:induction false} BigEndianBound(bytes: seq<byte>)
    ensures BigEndian(bytes) < Pow256(|bytes|)
  {
    if bytes != [] {
      OneMoreByte(|bytes| - 1);
      BigEndianBound(bytes[..|bytes| - 1]);
    }
  }

  lemma Widths()
    ensures Pow256(1) == 0x100 && Pow256(2) == U16 && Pow256(4) == U32
  {
    hide Pow2;
    assert Pow256(0) == 1 by { NoByte(); }
    OneMoreByte(0);
    OneMoreByte(1);
    OneMoreByte(2);
    OneMoreByte(3);
  }

  lemma NoByte()
    ensures Pow256(0) == 1
  {
  }

  lemma BigEndianWidths(bytes: seq<byte>)
    ensures |bytes| == 1 ==> BigEndian(bytes) < 0x100
    ensures |bytes| == 2 ==> BigEndian(bytes) < U16
    ensures |bytes| == 4 ==> BigEndian(bytes) < U32
  {
    hide Pow256;
    BigEndianBound(bytes);
    Widths();
  }

  /** Writing and then reading a number of the given width gives it back. */
  lemma {:induction false} BigEndianOfUnparse(val: nat, len: nat)
    requires val < Pow256(len)
    ensures BigEndian(Unparse(val, len)) == val
    decreases len
  {
    if len > 0 {
      OneMoreByte(len - 1);
      BigEndianOfUnparse(val / 0x100, len - 1);
      var bytes := Unparse(val, len);
      assert bytes[..len - 1] == Unparse(val / 0x100, len - 1);
    }
  }

  /** And reading and then writing gives the bytes back. */
  lemma {:induction false} UnparseOfBigEndian(bytes: seq<byte>)
    ensures Unparse(BigEndian(bytes), |bytes|) == bytes
    decreases |bytes|
  {
    if bytes != [] {
      UnparseOfBigEndian(bytes[..|bytes| - 1]);
      assert bytes == bytes[..|bytes| - 1] + [bytes[|bytes| - 1]];
    }
  }

  lemma BigEndianOfPrefix(bytes: seq<byte>, i: nat)
    requires i < |bytes|
    ensures BigEndian(bytes[..i + 1]) == BigEndian(bytes[..i]) * 0x100 + bytes[i]
  {
    assert bytes[..i + 1][..i] == bytes[..i];
  }

  function Zeros(n: nat): (bytes: seq<byte>)
    ensures |bytes| == n
  {
    seq(n, i => 0)
  }

  function TakeU8(p: Parser): (byte, Parser) {
    BigEndianWidths(p.buffer[..Min(1, |p.buffer|)]);
    p.ParseInt(1)
  }

  function TakeU16(p: Parser): (uint16, Parser) {
    BigEndianWidths(p.buffer[..Min(2, |p.buffer|)]);
    p.ParseInt(2)
  }

  function TakeU32(p: Parser): (uint32, Parser) {
    BigEndianWidths(p.buffer[..Min(4, |p.buffer|)]);
    p.ParseInt(4)
  }

  lemma TakeAt(text: seq<byte>, i: nat, len: nat, val: nat)
    requires i + len <= |text| && text[i..i + len] == Unparse(val, len) && val < Pow256(len)
    ensures Parser(text[i..], NoError).ParseInt(len) == (val, Parser(text[i + len..], NoError))
  {
    BigEndianOfUnparse(val, len);
    assert text[i..][..len] == text[i..i + len];
    assert text[i..][len..] == text[i + len..];
  }

  lemma UnparseOne(b: byte)
    ensures Unparse(b, 1) == [b]
  {
    assert Unparse(b / 0x100, 0) == [];
  }

  lemma TakeU16At(text: seq<byte>, i: nat, val: uint16)
    requires i + 2 <= |text| && text[i..i + 2] == Unparse(val, 2)
    ensures TakeU16(Parser(text[i..], NoError)) == (val, Parser(text[i + 2..], NoError))
  {
    Widths();
    TakeAt(text, i, 2, val);
  }

  lemma TakeU32At(text: seq<byte>, i: nat, val: uint32)
    requires i + 4 <= |text| && text[i..i + 4] == Unparse(val, 4)
    ensures TakeU32(Parser(text[i..], NoError)) == (val, Parser(text[i + 4..], NoError))
  {
    Widths();
    TakeAt(text, i, 4, val);
  }

  lemma TakeU8At(text: seq<byte>, i: nat)
    requires i < |text|
    ensures TakeU8(Parser(text[i..], NoError)) == (text[i], Parser(text[i + 1..], NoError))
  {
    Widths();
    UnparseOne(text[i]);
    assert text[i..i + 1] == [text[i]];
    TakeAt(text, i, 1, text[i]);
  }

  lemma StepAt(text: seq<byte>, i: nat, len: nat)
    requires i + len <= |text|
    ensures Parser(text[i..], NoError).ParseInt(len) == (BigEndian(text[i..i + len]), Parser(text[i + len..], NoError))
  {
    assert text[i..][..len] == text[i..i + len];
    assert text[i..][len..] == text[i + len..];
  }

  /** Reading past the end gives zero and moves nothing; the error stays. */
  lemma ReadPastEnd(p: Parser, len: nat)
    requires len > |p.buffer|
    ensures p.ParseInt(len) == (0, Parser(p.buffer, PacketTooShort))
    ensures p.RemovePrefix(len) == Parser(p.buffer, PacketTooShort)
  {
  }

  /** And nothing is read after an error. */
  lemma ReadAfterError(p: Parser, len: nat)
    requires len <= |p.buffer| && p.error != NoError
    ensures p.ParseInt(len) == (0, p) && p.RemovePrefix(len) == p
  {
  }

  /** The number in the two bytes at a place, the most significant first, as all numbers on the wire. */
  function Two(text: seq<byte>, i: nat): uint16
    requires i + 2 <= |text|
  {
    var high: nat, low: nat := text[i], text[i + 1];
    high * 0x100 + low
  }

  function Four(text: seq<byte>, i: nat): uint32
    requires i + 4 <= |text|
  {
    Two(text, i) * U16 + Two(text, i + 2)
  }

  lemma TwoIs(bytes: seq<byte>)
    requires |bytes| == 2
    ensures BigEndian(bytes) == Two(bytes, 0)
  {
    BigEndianOfPrefix(bytes, 0);
    BigEndianOfPrefix(bytes, 1);
    assert bytes[..2] == bytes;
  }

  lemma FourIs(bytes: seq<byte>)
    requires |bytes| == 4
    ensures BigEndian(bytes) == Four(bytes, 0)
  {
    BigEndianOfPrefix(bytes, 2);
    BigEndianOfPrefix(bytes, 3);
    assert bytes[..4] == bytes && Two(bytes[..2], 0) == Two(bytes, 0);
    TwoIs(bytes[..2]);
  }

  lemma TakesTwo(text: seq<byte>, i: nat)
    requires i + 2 <= |text|
    ensures TakeU16(Parser(text[i..], NoError)) == (Two(text, i), Parser(text[i + 2..], NoError))
  {
    StepAt(text, i, 2);
    TwoIs(text[i..i + 2]);
  }

  lemma TakesFour(text: seq<byte>, i: nat)
    requires i + 4 <= |text|
    ensures TakeU32(Parser(text[i..], NoError)) == (Four(text, i), Parser(text[i + 4..], NoError))
  {
    StepAt(text, i, 4);
    FourIs(text[i..i + 4]);
  }

  class NetParser {
    var buffer: seq<byte>
    var error: ParseResult

    function View(): Parser
      reads this
    {
      Parser(buffer, error)
    }

    constructor (buffer: seq<byte>)
      ensures View() == Parser(buffer, NoError)
    {
      this.buffer := buffer;
      error := NoError;
    }

    method CheckSize(size: nat)
      modifies this
      ensures View() == old(View()).CheckSize(size)
    {
      if size > |buffer| {
        error := PacketTooShort;
      }
    }

    method ParseInt(len: nat) returns (val: nat)
      modifies this
      ensures (val, View()) == old(View()).ParseInt(len)
    {
      CheckSize(len);
      if error != NoError {
        return 0;
      }
      val := 0;
      for i := 0 to len
        invariant buffer == old(buffer) && error == NoError && len <= |buffer|
        invariant val == BigEndian(buffer[..i])
      {
        BigEndianOfPrefix(buffer, i);
        val := val * 0x100 + buffer[i];
      }
      buffer := buffer[len..];
    }

    method RemovePrefix(n: nat)
      modifies this
      ensures View() == old(View()).RemovePrefix(n)
    {
      CheckSize(n);
      if error != NoError {
        return;
      }
      buffer := buffer[n..];
    }
  }

  /** The byte that the unparser's loop shifts out in round `i`. */
  function ShiftedByte(val: nat, len: nat, i: nat): byte
    requires i < len
  {
    val / Pow256(len - i - 1) % 0x100
  }

  lemma DivideTwice(val: nat, d: nat)
    requires d >= 1
    ensures val / 0x100 / d == val / (0x100 * d)
  {
    var v := val / 0x100;
    var q, a := v / d, v % d;
    assert v == q * d + a;
    assert val == 0x100 * v + val % 0x100;
    assert val == q * (0x100 * d) + (0x100 * a + val % 0x100);
    DividesUp(val, 0x100 * d, q, 0x100 * a + val % 0x100);
  }

  /** The loop's shift selects the same byte as peeling bytes off the low end. */
  lemma {:induction false} UnparsedByte(val: nat, len: nat, i: nat)
    requires i < len
    ensures Unparse(val, len)[i] == ShiftedByte(val, len, i)
    decreases len
  {
    if i < len - 1 {
      UnparsedByte(val / 0x100, len - 1, i);
      OneMoreByte(len - i - 2);
      DivideTwice(val, Pow256(len - i - 2));
    } else {
      NoByte();
    }
  }

  method UnparseInt(s: seq<byte>, val: nat, len: nat) returns (t: seq<byte>)
    ensures t == s + Unparse(val, len)
  {
    t := s;
    for i := 0 to len
      invariant t == s + Unparse(val, len)[..i]
    {
      UnparsedByte(val, len, i);
      t := t + [val / Pow256(len - i - 1) % 0x100];
    }
  }

  method ReadU8(p: NetParser) returns (val: byte)
    modifies p
    ensures (val, p.View()) == TakeU8(old(p.View()))
  {
    BigEndianWidths(p.buffer[..Min(1, |p.buffer|)]);
    val := p.ParseInt(1);
  }

  method ReadU16(p: NetParser) returns (val: uint16)
    modifies p
    ensures (val, p.View()) == TakeU16(old(p.View()))
  {
    BigEndianWidths(p.buffer[..Min(2, |p.buffer|)]);
    val := p.ParseInt(2);
  }

  method ReadU32(p: NetParser) returns (val: uint32)
    modifies p
    ensures (val, p.View()) == TakeU32(old(p.View()))
  {
    BigEndianWidths(p.buffer[..Min(4, |p.buffer|)]);
    val := p.ParseInt(4);
  }
}
