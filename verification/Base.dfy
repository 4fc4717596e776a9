/** Integer widths, bytes and the few collection helpers that the whole model shares. */
module Base {
  const U16 := 0x1_0000
  const U31 := 0x8000_0000
  const U32 := 0x1_0000_0000
  const U63 := 0x8000_0000_0000_0000
  const U64 := 0x1_0000_0000_0000_0000

  /** Streams this short leave every 64-bit sum of the model in range. */
  const MAX_STREAM := U63 - U32

  type byte = b: int | 0 <= b < 0x100
  type uint16 = n: int | 0 <= n < U16
  type uint32 = n: int | 0 <= n < U32
  type uint64 = n: int | 0 <= n < U64

  datatype Option<+T> = None | Some(value: T) {
    function GetOr(default: T): T {
      if Some? then value else default
    }
  }

  function Min(a: int, b: int): int {
    if a <= b then a else b
  }

  function Max(a: int, b: int): int {
    if a <= b then b else a
  }

  function Pow2(n: nat): (p: nat)
    ensures p >= 1
  {
    if n == 0 then 1 else 2 * Pow2(n - 1)
  }

  lemma Multiples(k: int, d: nat)
    ensures k >= 1 ==> k * d >= d
    ensures k <= -1 ==> k * d <= -(d as int)
  {
  }

  /** Quotient and remainder are what divides up the number. */
  lemma DividesUp(x: int, d: nat, q: int, r: nat)
    requires x == q * d + r && r < d
    ensures x / d == q && x % d == r
  {
    var k := x / d - q;
    assert k * d == r - x % d;
    Multiples(k, d);
  }

  lemma {:induction false} LeastExists(s: set<nat>)
    requires s != {}
    ensures exists k :: k in s && forall j :: j in s ==> k <= j
    decreases |s|
  {
    var x :| x in s;
    var rest := s - {x};
    if rest == {} {
      assert s == {x};
    } else {
      LeastExists(rest);
      var k :| k in rest && forall j :: j in rest ==> k <= j;
      assert s == rest + {x};
      assert Min(x, k) in s && forall j :: j in s ==> Min(x, k) <= j;
    }
  }

  /** The key that iteration of an ordered map visits first. */
  function MinKey<T>(m: map<nat, T>): (k: nat)
    requires m.Keys != {}
    ensures k in m && forall j :: j in m ==> k <= j
  {
    LeastExists(m.Keys);
    var k :| k in m.Keys && forall j :: j in m.Keys ==> k <= j;
    k
  }

  lemma MapRemoveShrinks<K, V>(m: map<K, V>, k: K)
    requires k in m
    ensures |m - {k}| < |m|
  {
    assert (m - {k}).Keys == m.Keys - {k};
    assert |m.Keys| == |m| && |(m - {k}).Keys| == |m - {k}|;
  }

  /** A finite set of naturals inside [lo, hi) has at most hi - lo elements. */
  lemma {:induction false} IntervalSetSize(s: set<nat>, lo: nat, hi: nat)
    requires lo <= hi
    requires forall k :: k in s ==> lo <= k < hi
    ensures |s| <= hi - lo
    decreases hi - lo
  {
    if lo == hi {
      assert s == {};
    } else {
      IntervalSetSize(s - {hi - 1}, lo, hi - 1);
    }
  }
}
