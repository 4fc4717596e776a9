/** 32-bit sequence numbers on the wire and 64-bit absolute ones inside the endpoints. */
module WrappingIntegers {
  import opened Base

  function Wrap(n: nat, isn: uint32): uint32 {
    (n % U32 + isn) % U32
  }

  /** Reinterprets a 32-bit difference as a two's complement number. */
  function AsInt32(diff: uint32): int {
    if diff < U31 then diff else diff - U32
  }

  function Difference(n: uint32, isn: uint32, checkpoint: nat): uint32 {
    (n - Wrap(checkpoint, isn)) % U32
  }

  /** The additions are 64-bit and unsigned; the test reads the sum as a signed number. */
  function Unwrap(n: uint32, isn: uint32, checkpoint: nat): uint64 {
    var diff := Difference(n, isn, checkpoint);
    if (AsInt32(diff) + checkpoint) % U64 >= U63 then
      (checkpoint + diff) % U64
    else
      (checkpoint + AsInt32(diff)) % U64
  }

  function Distance(a: int, b: int): nat {
    if a <= b then b - a else a - b
  }

  /** `r` stands for `n`, and no other 64-bit number that does is closer to the checkpoint. */
  ghost predicate IsNearest(r: uint64, n: uint32, isn: uint32, checkpoint: uint64) {
    && Wrap(r, isn) == n
    && forall v: uint64 :: Wrap(v, isn) == n ==> Distance(r, checkpoint) <= Distance(v, checkpoint)
  }

  lemma ModShift(x: int, k: int)
    ensures (x + k * U32) % U32 == x % U32
  {
    var q, r := x / U32, x % U32;
    assert x + k * U32 == (q + k) * U32 + r;
    DividesUp(x + k * U32, U32, q + k, r);
  }

  /** Of two numbers below 2^32, the sum modulo 2^32. */
  lemma SumOfTwo(a: uint32, b: uint32)
    ensures (a + b) % U32 == if a + b < U32 then a + b else a + b - U32
  {
  }

  /** Two numbers wrap to the same value exactly when they differ by a multiple of 2^32. */
  lemma WrapEqualIff(x: nat, y: nat, isn: uint32)
    ensures Wrap(x, isn) == Wrap(y, isn) <==> (x - y) % U32 == 0
  {
    var a, b := x % U32, y % U32;
    ModShift(a - b, x / U32 - y / U32);
    assert x - y == (a - b) + (x / U32 - y / U32) * U32;
    assert -U32 < a - b < U32;
    assert (x - y) % U32 == (a - b) % U32;
    assert (a - b) % U32 == 0 <==> a == b by {
      if a - b < 0 { DividesUp(a - b, U32, -1, a - b + U32); } else { DividesUp(a - b, U32, 0, a - b); }
    }
    SumOfTwo(a, isn);
    SumOfTwo(b, isn);
  }

  lemma DifferenceAdds(n: uint32, isn: uint32, checkpoint: nat)
    ensures Wrap(checkpoint + Difference(n, isn, checkpoint), isn) == n
  {
    var diff, c := Difference(n, isn, checkpoint), checkpoint % U32;
    ModShift(c + diff, checkpoint / U32);
    assert (checkpoint + diff) % U32 == (c + diff) % U32;
    SumOfTwo(c, isn);
    SumOfTwo(c, diff);
    SumOfTwo((c + diff) % U32, isn);
    var w := Wrap(checkpoint, isn);
    assert diff == if n >= w then n - w else n - w + U32;
  }

  /** The signed difference leads from the checkpoint to a number that wraps to `n`. */
  lemma DifferenceReaches(n: uint32, isn: uint32, checkpoint: nat, v: nat)
    ensures Wrap(v, isn) == n <==> (v - (checkpoint + AsInt32(Difference(n, isn, checkpoint)))) % U32 == 0
  {
    var diff := Difference(n, isn, checkpoint);
    DifferenceAdds(n, isn, checkpoint);
    WrapEqualIff(v, checkpoint + diff, isn);
    ModShift(v - (checkpoint + diff), 1);
  }

  /** Unwrapping always yields a number that wraps back, for every checkpoint. */
  lemma WrapOfUnwrap(n: uint32, isn: uint32, checkpoint: nat)
    ensures Wrap(Unwrap(n, isn, checkpoint), isn) == n
  {
    var diff := Difference(n, isn, checkpoint);
    var s := checkpoint + AsInt32(diff);
    var u := Unwrap(n, isn, checkpoint);
    DifferenceReaches(n, isn, checkpoint, u);
    var t := if (AsInt32(diff) + checkpoint) % U64 >= U63 then checkpoint + diff else s;
    assert u == t % U64;
    assert u - s == (t - s) - t / U64 * U64;
    ModShift(t - s, -(t / U64) * U32);
    assert (u - s) % U32 == (t - s) % U32;
  }

  /** The value that `Unwrap` picks, by the region the signed candidate falls in. */
  lemma UnwrapCases(n: uint32, isn: uint32, c: uint64)
    ensures var d := AsInt32(Difference(n, isn, c));
            Unwrap(n, isn, c) ==
            if c + d < 0 then c + d + U32
            else if c + d < U63 then c + d
            else if c + d < U64 && 0 <= d then c + d
            else if c + d < U64 then (c + d + U32) % U64
            else c + d - U64
  {
    var d := AsInt32(Difference(n, isn, c));
    assert -U31 <= d < U31;
    if c + d < 0 { assert (d + c) % U64 == c + d + U64; }
    else if c + d < U64 { assert (d + c) % U64 == c + d; }
    else { assert (d + c) % U64 == c + d - U64; }
  }

  /** The checkpoints and numbers for which the documented promise holds: the signed candidate
      neither leaves 64 bits nor steps back inside the upper half of the 64-bit range. */
  predicate CandidateUsable(n: uint32, isn: uint32, c: uint64) {
    var d := AsInt32(Difference(n, isn, c));
    if 0 <= d then c + d < U64 else c + d < U63 || (d == -U31 && c + U31 < U64)
  }

  lemma NearestWhenUsable(n: uint32, isn: uint32, c: uint64)
    requires CandidateUsable(n, isn, c)
    ensures IsNearest(Unwrap(n, isn, c), n, isn, c)
  {
    WrapOfUnwrap(n, isn, c);
    UnwrapCases(n, isn, c);
    var d := AsInt32(Difference(n, isn, c));
    var r := Unwrap(n, isn, c);
    forall v: uint64 | Wrap(v, isn) == n ensures Distance(r, c) <= Distance(v, c) {
      DifferenceReaches(n, isn, c, v);
      var q := (v - (c + d)) / U32;
      assert v == c + d + q * U32;
      if q >= 1 { assert q * U32 >= U32; }
      if q <= -1 { assert q * U32 <= -U32; }
    }
  }

  lemma NotNearestWhenUnusable(n: uint32, isn: uint32, c: uint64)
    requires !CandidateUsable(n, isn, c)
    ensures !IsNearest(Unwrap(n, isn, c), n, isn, c)
  {
    UnwrapCases(n, isn, c);
    var d := AsInt32(Difference(n, isn, c));
    var closer: uint64 := if c + d < U64 then c + d else c + d - U32;
    DifferenceReaches(n, isn, c, closer);
    assert Wrap(closer, isn) == n;
    assert Distance(closer, c) < Distance(Unwrap(n, isn, c), c);
  }

  /** The exact condition for one number. */
  lemma NearestIff(n: uint32, isn: uint32, c: uint64)
    ensures IsNearest(Unwrap(n, isn, c), n, isn, c) <==> CandidateUsable(n, isn, c)
  {
    if CandidateUsable(n, isn, c) { NearestWhenUsable(n, isn, c); } else { NotNearestWhenUnusable(n, isn, c); }
  }

  /** A checkpoint serves every number correctly exactly up to 2^63. */
  lemma AlwaysNearestIff(isn: uint32, c: uint64)
    ensures (forall n: uint32 :: IsNearest(Unwrap(n, isn, c), n, isn, c)) <==> c <= U63
  {
    if c <= U63 {
      forall n: uint32 ensures IsNearest(Unwrap(n, isn, c), n, isn, c) { NearestIff(n, isn, c); }
    } else {
      var n := Wrap(c - 1, isn);
      DifferenceReaches(n, isn, c, c - 1);
      var d := AsInt32(Difference(n, isn, c));
      assert (-1 - d) % U32 == 0;
      assert -1 - d == (-1 - d) / U32 * U32;
      assert d == -1;
      NearestIff(n, isn, c);
    }
  }

  /** The round trip the two endpoints rely on: a number within 2^31 of the checkpoint survives the wire. */
  lemma UnwrapOfWrap(x: nat, isn: uint32, c: nat)
    requires -U31 <= x - c < U31 && c <= U63
    ensures Unwrap(Wrap(x, isn), isn, c) == x
  {
    var n := Wrap(x, isn);
    DifferenceReaches(n, isn, c, x);
    var d := AsInt32(Difference(n, isn, c));
    var q := (x - (c + d)) / U32;
    assert x == c + d + q * U32;
    assert q == 0;
    UnwrapCases(n, isn, c);
  }
}
