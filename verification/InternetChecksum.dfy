/** The Internet checksum of RFC 1071: one's complement arithmetic on 16-bit words. */
module InternetChecksums {
  import opened Base
  import opened NetParsers

  /** A byte's share of its 16-bit word. */
  function Weighted(b: int, low: bool): int {
    if low then b else b * 0x100
  }

  datatype Checksum = Checksum(sum: uint32, parity: bool)
  {
    function AddByte(b: byte): Checksum {
      Checksum((sum + Weighted(b, parity)) % U32, !parity)
    }

    function Add(data: seq<byte>): Checksum
      decreases |data|
    {
      if data == [] then this else Add(data[..|data| - 1]).AddByte(data[|data| - 1])
    }

    function Value(): uint16 {
      0xFFFF - Fold(sum)
    }
  }

  /** Carries are added back in until the sum fits 16 bits. */
  function Fold(x: nat): (r: uint16)
    decreases x
  {
    if x > 0xFFFF then Fold(x / U16 + x % U16) else x
  }

  /** The sum of the 16-bit words without any limit; an odd last byte counts as a high one. */
  function WordSum(data: seq<byte>, parity: bool): nat
    decreases |data|
  {
    if data == [] then 0 else
    WordSum(data[..|data| - 1], parity)
    + Weighted(data[|data| - 1], parity == (|data| % 2 == 1))
  }

  /** Adding in pieces is adding the concatenation. */
  lemma {:induction false} AddConcat(c: Checksum, a: seq<byte>, b: seq<byte>)
    ensures c.Add(a).Add(b) == c.Add(a + b)
    decreases |b|
  {
    if b == [] {
      assert a + b == a;
    } else {
      AddConcat(c, a, b[..|b| - 1]);
      assert (a + b)[..|a + b| - 1] == a + b[..|b| - 1];
    }
  }

  lemma {:induction false} WordSumConcat(a: seq<byte>, b: seq<byte>, parity: bool)
    requires |a| % 2 == 0
    ensures WordSum(a + b, parity) == WordSum(a, parity) + WordSum(b, parity)
    decreases |b|
  {
    hide Weighted;
    if b == [] {
      assert a + b == a;
    } else {
      WordSumConcat(a, b[..|b| - 1], parity);
      assert (a + b)[..|a + b| - 1] == a + b[..|b| - 1];
    }
  }

  /** The accumulator holds the sum of the words in 32 bits. */
  lemma {:induction false} AddIsWordSum(c: Checksum, data: seq<byte>)
    ensures c.Add(data) == Checksum((c.sum + WordSum(data, c.parity)) % U32, c.parity == (|data| % 2 == 0))
    decreases |data|
  {
    if data != [] {
      var front := data[..|data| - 1];
      AddIsWordSum(c, front);
      AddWrapped(c.sum + WordSum(front, c.parity), Weighted(data[|data| - 1], c.Add(front).parity));
    }
  }

  lemma AddWrapped(x: nat, y: nat)
    ensures (x % U32 + y) % U32 == (x + y) % U32
  {
  }

  /** Folding keeps the value modulo 2^16 - 1, and only zero folds to zero. */
  lemma {:induction false} FoldModulo(x: nat)
    ensures Fold(x) % 0xFFFF == x % 0xFFFF
    ensures Fold(x) == 0 <==> x == 0
    decreases x
  {
    if x > 0xFFFF {
      var y := x / U16 + x % U16;
      FoldModulo(y);
      assert x == x / U16 * 0xFFFF + y;
      AddMultiple(y, x / U16);
    }
  }

  lemma AddMultiple(y: nat, k: nat)
    ensures (y + k * 0xFFFF) % 0xFFFF == y % 0xFFFF
  {
  }

  /** A text verifies exactly when its sum is a positive multiple of 2^16 - 1. */
  lemma VerifiesIff(sum: uint32, parity: bool)
    ensures Checksum(sum, parity).Value() == 0 <==> sum > 0 && sum % 0xFFFF == 0
  {
    FoldModulo(sum);
    assert Fold(sum) == 0xFFFF <==> sum > 0 && Fold(sum) % 0xFFFF == 0;
  }

  lemma WordOfTwoBytes(high: byte, low: byte)
    ensures WordSum([high, low], false) == high * 0x100 + low
  {
    assert [high, low][..1] == [high] && [high][..0] == [];
    assert WordSum([high], false) == high * 0x100;
  }

  lemma UnparsedWord(val: uint16)
    ensures Unparse(val, 2) == [val / 0x100, val % 0x100]
    ensures WordSum(Unparse(val, 2), false) == val
  {
    assert Unparse(val / 0x100, 1) == [val / 0x100];
    WordOfTwoBytes(val / 0x100, val % 0x100);
  }

  lemma WordSumAround(before: seq<byte>, word: seq<byte>, after: seq<byte>)
    requires |before| % 2 == 0 && |word| == 2
    ensures WordSum(before + word + after, false)
            == WordSum(before, false) + WordSum(word, false) + WordSum(after, false)
  {
    WordSumConcat(before + word, after, false);
    WordSumConcat(before, word, false);
  }

  /** A sum plus the complement of its fold is a positive multiple of 2^16 - 1. */
  lemma FoldComplement(x: nat)
    ensures x + 0xFFFF - Fold(x) > 0 && (x + 0xFFFF - Fold(x)) % 0xFFFF == 0
  {
    FoldModulo(x);
    assert x == x / 0xFFFF * 0xFFFF + x % 0xFFFF && Fold(x) == Fold(x) / 0xFFFF * 0xFFFF + Fold(x) % 0xFFFF;
  }

  lemma FilledSum(initial: uint32, before: seq<byte>, after: seq<byte>, cksum: uint16)
    requires |before| % 2 == 0
    ensures Checksum(initial, false).Add(before + Unparse(cksum, 2) + after).sum
            == (Checksum(initial, false).Add(before + [0, 0] + after).sum + cksum) % U32
  {
    var blank, filled := before + [0, 0] + after, before + Unparse(cksum, 2) + after;
    assert WordSum(filled, false) == WordSum(blank, false) + cksum by {
      WordSumAround(before, [0, 0], after);
      WordSumAround(before, Unparse(cksum, 2), after);
      WordOfTwoBytes(0, 0);
      UnparsedWord(cksum);
    }
    AddIsWordSum(Checksum(initial, false), blank);
    AddIsWordSum(Checksum(initial, false), filled);
    AddWrapped(initial + WordSum(blank, false), cksum);
  }

  lemma MultipleVerifiesIff(x: nat, parity: bool)
    requires 0 < x < 2 * U32 && x % 0xFFFF == 0
    ensures Checksum(x % U32, parity).Value() == 0 <==> x < U32
  {
    VerifiesIff(x % U32, parity);
    if x < U32 {
      assert x % U32 == x;
    } else {
      WrappedIsNoMultiple(x);
    }
  }

  /** Filling the checksum into a zero field at an even offset makes the whole text verify (RFC 1071,
      section 1), exactly when the 32-bit accumulator has room for the checksum as well. */
  lemma FilledTextVerifiesIff(initial: uint32, before: seq<byte>, after: seq<byte>, cksum: uint16)
    requires |before| % 2 == 0
    requires cksum == Checksum(initial, false).Add(before + [0, 0] + after).Value()
    ensures Checksum(initial, false).Add(before + Unparse(cksum, 2) + after).Value() == 0
            <==> Checksum(initial, false).Add(before + [0, 0] + after).sum + cksum < U32
  {
    FilledSum(initial, before, after, cksum);
    var sum := Checksum(initial, false).Add(before + [0, 0] + after).sum;
    FoldComplement(sum);
    MultipleVerifiesIff(sum + cksum, Checksum(initial, false).Add(before + Unparse(cksum, 2) + after).parity);
  }

  /** 2^32 leaves 1 when divided by 2^16 - 1, so a multiple that wraps around is a multiple no more. */
  lemma WrappedIsNoMultiple(x: nat)
    requires U32 <= x < 2 * U32 && x % 0xFFFF == 0
    ensures x % U32 % 0xFFFF != 0
  {
    assert x % U32 == x - U32 && U32 == 0x10001 * 0xFFFF + 1;
  }

  /** Short texts leave room for the checksum. */
  lemma RoomForChecksum(initial: uint32, data: seq<byte>, cksum: uint16)
    requires initial + 0xFF00 * |data| + 0xFFFF < U32
    ensures Checksum(initial, false).Add(data).sum + cksum < U32
  {
    AddIsWordSum(Checksum(initial, false), data);
    WordSumBound(data, false);
  }

  lemma {:induction false} WordSumBound(data: seq<byte>, parity: bool)
    ensures WordSum(data, parity) <= |data| * 0xFF00
    decreases |data|
  {
    if data != [] { WordSumBound(data[..|data| - 1], parity); }
  }

  class InternetChecksum {
    var sum: uint32
    var parity: bool

    function View(): Checksum
      reads this
    {
      Checksum(sum, parity)
    }

    constructor (initial: uint32)
      ensures View() == Checksum(initial, false)
    {
      sum := initial;
      parity := false;
    }

    method Add(data: seq<byte>)
      modifies this
      ensures View() == old(View()).Add(data)
    {
      for i := 0 to |data|
        invariant View() == old(View()).Add(data[..i])
      {
        assert data[..i + 1][..i] == data[..i];
        var val: uint16 := data[i];
        if !parity {
          val := val * 0x100;
        }
        sum := (sum + val) % U32;
        parity := !parity;
      }
      assert data[..|data|] == data;
    }

    method Value() returns (val: uint16)
      ensures val == View().Value()
    {
      var ret: nat := sum;
      while ret > 0xFFFF
        invariant Fold(ret) == Fold(sum)
        decreases ret
      {
        ret := ret / U16 + ret % U16;
      }
      val := 0xFFFF - ret;
    }
  }
}
