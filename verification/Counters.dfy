/** Counters of 16 bits that wrap, and the sizes of the sets they count. */
module Counters {
  const U16: nat := 0x1_0000

  function Incremented(n: nat): nat
  {
    (n + 1) % U16
  }

  function Decremented(n: nat): nat
  {
    if n == 0 then U16 - 1 else n - 1
  }

  lemma NoWrap(n: nat)
    ensures n + 1 < U16 ==> Incremented(n) == n + 1
    ensures n > 0 ==> Decremented(n) == n - 1
  {
  }

  /** Counting modulo 2^16. */
  lemma Wrapped(n: nat)
    ensures Incremented(n % U16) == (n + 1) % U16
    ensures n > 0 ==> Decremented(n % U16) == (n - 1) % U16
  {
  }

  lemma {:induction false} SubsetSize(s: set<nat>, t: set<nat>)
    requires s <= t
    ensures |s| <= |t|
  {
    if s != {} {
      var k :| k in s;
      SubsetSize(s - {k}, t - {k});
    }
  }

  function Bit(b: bool): nat
  {
    if b then 1 else 0
  }

  /** Two sets that agree but for one element. */
  lemma OneDiffers(u: set<nat>, v: set<nat>, c: nat)
    requires forall d :: d != c ==> (d in u <==> d in v)
    ensures |v| + Bit(c in u) == |u| + Bit(c in v)
  {
    assert v - {c} == u - {c};
    assert |v| == |v - {c}| + Bit(c in v) && |u| == |u - {c}| + Bit(c in u);
  }
}
