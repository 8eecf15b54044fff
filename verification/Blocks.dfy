/** Power-of-two blocks of physical memory, and sets of them that do not overlap. */
module Blocks {
  import opened Layout

  datatype Block = Block(order: nat, addr: nat)

  type Unit = n: nat | n > 0 witness 1

  /** The size of a block of the given order. */
  function Size(m: Unit, order: nat): Unit
  {
    if order == 0 then m else 2 * Size(m, order - 1)
  }

  function End(m: Unit, b: Block): nat
  {
    b.addr + Size(m, b.order)
  }

  /** Both halves of the next larger block around an address, the lower one first. */
  function Buddies(m: Unit, order: nat, addr: nat): (nat, nat)
  {
    var parentSize := 2 * Size(m, order);
    var low := RoundDown(addr, parentSize);
    (low, low + Size(m, order))
  }

  ghost predicate Aligned(m: Unit, b: Block)
  {
    b.addr % Size(m, b.order) == 0
  }

  ghost predicate Holds(m: Unit, b: Block, x: nat)
  {
    b.addr <= x < End(m, b)
  }

  ghost predicate Apart(m: Unit, b: Block, c: Block)
  {
    End(m, b) <= c.addr || End(m, c) <= b.addr
  }

  /** The aligned block of an order around an address. */
  ghost function Around(m: Unit, order: nat, addr: nat): Block
  {
    Block(order, RoundDown(addr, Size(m, order)))
  }

  ghost function Low(m: Unit, parent: Block): Block
    requires parent.order > 0
  {
    Block(parent.order - 1, parent.addr)
  }

  ghost function High(m: Unit, parent: Block): Block
    requires parent.order > 0
  {
    Block(parent.order - 1, parent.addr + Size(m, parent.order - 1))
  }

  // ---- Alignment ----

  lemma AroundHolds(m: Unit, order: nat, addr: nat)
    ensures var b := Around(m, order, addr); Aligned(m, b) && Holds(m, b, addr)
  {
    hide Size;
    var d := Size(m, order);
    var q, r := Divided(addr, d);
    SlotOffset(q, r, d);
    SlotOffset(q, 0, d);
  }

  lemma AroundOrder(m: Unit, order: nat, addr: nat)
    ensures Around(m, order, addr).order == order
  {
  }

  /** An aligned block is the block around each of its addresses. */
  lemma AroundUnique(m: Unit, b: Block, x: nat)
    requires Aligned(m, b) && Holds(m, b, x)
    ensures Around(m, b.order, x) == b
  {
    var d := Size(m, b.order);
    DivBounds(b.addr, d);
    MulSucc(b.addr / d, d);
    DivUnique(x, d, b.addr / d);
  }

  lemma BuddiesAround(m: Unit, order: nat, addr: nat)
    ensures var p := Around(m, order + 1, addr);
            Buddies(m, order, addr) == (Low(m, p).addr, High(m, p).addr)
  {
  }

  /** The halves of an aligned block are aligned, and the block is the one around each of them. */
  lemma HalvesAligned(m: Unit, p: Block)
    requires p.order > 0 && Aligned(m, p)
    ensures Aligned(m, Low(m, p)) && Aligned(m, High(m, p))
    ensures Around(m, p.order, Low(m, p).addr) == p == Around(m, p.order, High(m, p).addr)
  {
    var h := Size(m, p.order - 1);
    DivBounds(p.addr, 2 * h);
    var i := p.addr / (2 * h);
    assert p.addr == i * (2 * h) == (2 * i) * h;
    MulSucc(2 * i, h);
    SlotOffset(2 * i, 0, h);
    SlotOffset(2 * i + 1, 0, h);
    AroundUnique(m, p, p.addr);
    AroundUnique(m, p, p.addr + h);
  }

  lemma {:induction false} SizeRatio(m: Unit, p: nat, q: nat) returns (r: nat)
    requires p <= q
    ensures r > 0 && Size(m, q) == r * Size(m, p) && (p < q ==> r > 1)
  {
    if p == q {
      r := 1;
    } else {
      var r' := SizeRatio(m, p, q - 1);
      r := 2 * r';
    }
  }

  lemma {:induction false} SizeGrows(m: Unit, p: nat, q: nat)
    requires p < q
    ensures Size(m, p) < Size(m, q)
  {
    if p < q - 1 {
      SizeGrows(m, p, q - 1);
    }
  }

  /** Two aligned blocks either do not overlap, or the smaller lies in the larger. */
  lemma NestedOrApart(m: Unit, b: Block, c: Block)
    requires Aligned(m, b) && Aligned(m, c) && b.order <= c.order
    ensures Apart(m, b, c) || (c.addr <= b.addr && End(m, b) <= End(m, c))
  {
    hide Size;
    var r := SizeRatio(m, b.order, c.order);
    var d := Size(m, b.order);
    var i, _ := Divided(b.addr, d);
    var j, _ := Divided(c.addr, Size(m, c.order));
    MulAssoc(j, r, d);
    NestedInUnits(i, j * r, r, d);
  }

  lemma NestedInUnits(i: nat, k: nat, r: nat, d: nat)
    requires r > 0
    ensures i * d + d <= k * d || k * d + r * d <= i * d || (k * d <= i * d && i * d + d <= k * d + r * d)
  {
    MulAdd(k, r, d);
    if i < k {
      MulStep(i, k, d);
    } else if i >= k + r {
      MulMonotone(k + r, i, d);
    } else {
      MulMonotone(k, i, d);
      MulStep(i, k + r, d);
    }
  }

  // ---- Sets of blocks ----

  ghost predicate Covered(m: Unit, s: set<Block>, x: nat)
  {
    exists b :: b in s && Holds(m, b, x)
  }

  /** Aligned blocks that do not overlap. */
  ghost predicate Disjoint(m: Unit, s: set<Block>)
  {
    && (forall b :: b in s ==> Aligned(m, b))
    && (forall b, c :: b in s && c in s && b != c ==> Apart(m, b, c))
  }

  ghost predicate SameCover(m: Unit, s: set<Block>, s': set<Block>)
  {
    forall x: nat :: Covered(m, s, x) <==> Covered(m, s', x)
  }

  /** The bytes in a set of blocks. */
  ghost function Total(m: Unit, s: set<Block>): nat
  {
    if s == {} then 0
    else var b :| b in s; Size(m, b.order) + Total(m, s - {b})
  }

  lemma TotalEmpty(m: Unit)
    ensures Total(m, {}) == 0
  {
  }

  lemma {:induction false} TotalAdd(m: Unit, s: set<Block>, b: Block)
    requires b !in s
    ensures Total(m, s + {b}) == Total(m, s) + Size(m, b.order)
  {
    var all := s + {b};
    var c :| c in all && Total(m, all) == Size(m, c.order) + Total(m, all - {c});
    if c == b {
      assert all - {c} == s;
    } else {
      TotalAdd(m, s - {c}, b);
      assert all - {c} == s - {c} + {b};
      TotalRemove(m, s, c);
    }
  }

  lemma {:induction false} TotalRemove(m: Unit, s: set<Block>, c: Block)
    requires c in s
    ensures Total(m, s) == Size(m, c.order) + Total(m, s - {c})
    decreases s, 0
  {
    var b :| b in s && Total(m, s) == Size(m, b.order) + Total(m, s - {b});
    if b != c {
      TotalRemove(m, s - {b}, c);
      TotalRemove(m, s - {c}, b);
      assert s - {b} - {c} == s - {c} - {b};
    }
  }

  lemma {:induction false} TotalUnion(m: Unit, s: set<Block>, u: set<Block>)
    requires s !! u
    ensures Total(m, s + u) == Total(m, s) + Total(m, u)
    decreases u
  {
    if u == {} {
      assert s + u == s;
    } else {
      var b :| b in u && Total(m, u) == Size(m, b.order) + Total(m, u - {b});
      TotalUnion(m, s, u - {b});
      TotalAdd(m, s + (u - {b}), b);
      assert s + u == s + (u - {b}) + {b};
    }
  }

  // ---- Splitting and joining ----

  ghost function Halved(m: Unit, s: set<Block>, p: Block): set<Block>
    requires p.order > 0
  {
    s - {p} + {Low(m, p), High(m, p)}
  }

  ghost function Joined(m: Unit, s: set<Block>, p: Block): set<Block>
    requires p.order > 0
  {
    s - {Low(m, p), High(m, p)} + {p}
  }

  /** A block and its halves cover the same addresses. */
  lemma HalvesCover(m: Unit, p: Block)
    requires p.order > 0
    ensures forall x: nat :: Holds(m, p, x) <==> Holds(m, Low(m, p), x) || Holds(m, High(m, p), x)
    ensures forall c :: Apart(m, c, p) <==> Apart(m, c, Low(m, p)) && Apart(m, c, High(m, p))
    ensures Low(m, p) != High(m, p) && Apart(m, Low(m, p), High(m, p))
  {
  }

  lemma NotApartFromSelf(m: Unit, b: Block)
    ensures !Apart(m, b, b)
  {
  }

  lemma SplitBlock(m: Unit, s: set<Block>, p: Block)
    requires Disjoint(m, s) && p in s && p.order > 0
    ensures Low(m, p) !in s && High(m, p) !in s
    ensures Disjoint(m, Halved(m, s, p)) && SameCover(m, s, Halved(m, s, p))
    ensures Total(m, Halved(m, s, p)) == Total(m, s)
  {
    hide Size, Total, Low, High, SameCover;
    SplitDisjoint(m, s, p);
    HalvesCover(m, p);
    SplitTotal(m, s, p);
    SplitCover(m, s, p);
  }

  lemma SplitDisjoint(m: Unit, s: set<Block>, p: Block)
    requires Disjoint(m, s) && p in s && p.order > 0
    ensures Low(m, p) !in s && High(m, p) !in s && Disjoint(m, Halved(m, s, p))
  {
    hide Size, Aligned, Low, High;
    var low, high := Low(m, p), High(m, p);
    HalvesCover(m, p);
    HalvesAligned(m, p);
    LargerIsOther(m, p);
    NotApartFromSelf(m, low);
    NotApartFromSelf(m, high);
    assert Apart(m, low, p) ==> Apart(m, low, low);
    assert Apart(m, high, p) ==> Apart(m, high, high);
    hide Apart;
  }

  lemma LargerIsOther(m: Unit, p: Block)
    requires p.order > 0
    ensures Low(m, p) != p && High(m, p) != p
  {
  }

  lemma SplitTotal(m: Unit, s: set<Block>, p: Block)
    requires p in s && p.order > 0 && Low(m, p) !in s && High(m, p) !in s && Low(m, p) != High(m, p)
    ensures Total(m, Halved(m, s, p)) == Total(m, s)
  {
    var low, high := Low(m, p), High(m, p);
    TotalRemove(m, s, p);
    TotalAdd(m, s - {p}, low);
    TotalAdd(m, s - {p} + {low}, high);
    assert s - {p} + {low} + {high} == Halved(m, s, p);
  }

  lemma SplitCover(m: Unit, s: set<Block>, p: Block)
    requires p in s && p.order > 0
    ensures SameCover(m, s, Halved(m, s, p))
  {
  }

  lemma JoinBlocks(m: Unit, s: set<Block>, p: Block)
    requires Disjoint(m, s) && p.order > 0 && Aligned(m, p) && Low(m, p) in s && High(m, p) in s
    ensures p !in s
    ensures Disjoint(m, Joined(m, s, p)) && SameCover(m, s, Joined(m, s, p))
    ensures Total(m, Joined(m, s, p)) == Total(m, s)
  {
    var low, high, s' := Low(m, p), High(m, p), Joined(m, s, p);
    HalvesCover(m, p);
    NotApartFromSelf(m, low);
    hide Aligned, Size;
    assert p in s ==> Apart(m, low, p);
    assert Halved(m, s', p) == s;
    hide Low, High, Total, Halved;
    JoinDisjoint(m, s, p);
    SplitTotal(m, s', p);
    SplitCover(m, s', p);
  }

  lemma JoinDisjoint(m: Unit, s: set<Block>, p: Block)
    requires Disjoint(m, s) && p.order > 0 && Aligned(m, p) && Low(m, p) in s && High(m, p) in s
    ensures Disjoint(m, Joined(m, s, p))
  {
    HalvesCover(m, p);
    hide Aligned, Size, Low, High;
    forall b, c | b in Joined(m, s, p) && c in Joined(m, s, p) && b != c
      ensures Apart(m, b, c)
    {
      if b == p {
        assert Apart(m, c, p);
      } else if c == p {
        assert Apart(m, b, p);
      }
    }
  }

  // ---- Coalescing ----

  /** `b` and `c` are the two halves of one larger block. */
  ghost predicate AreBuddies(m: Unit, b: Block, c: Block)
  {
    && b.order == c.order && b != c
    && Around(m, b.order + 1, b.addr) == Around(m, c.order + 1, c.addr)
  }

  /** No two buddies are both in the set. */
  ghost predicate Coalesced(m: Unit, s: set<Block>)
  {
    forall b, c :: b in s && c in s ==> !AreBuddies(m, b, c)
  }

  /** The only buddies in the set are `cur` and its own. */
  ghost predicate CoalescedBut(m: Unit, s: set<Block>, cur: Block)
  {
    forall b, c :: b in s && c in s && b != cur && c != cur ==> !AreBuddies(m, b, c)
  }

  /** Aligned buddies are the halves of the block around them. */
  lemma BuddiesAreHalves(m: Unit, b: Block, c: Block)
    requires Aligned(m, b) && Aligned(m, c) && AreBuddies(m, b, c)
    ensures var p := Around(m, b.order + 1, b.addr);
            (b == Low(m, p) && c == High(m, p)) || (b == High(m, p) && c == Low(m, p))
  {
    var p := Around(m, b.order + 1, b.addr);
    AroundHolds(m, b.order + 1, b.addr);
    AroundHolds(m, b.order + 1, c.addr);
    HalvesAligned(m, p);
    HalfIs(m, p, b);
    HalfIs(m, p, c);
  }

  /** An aligned block inside a block of the next order is one of its halves. */
  lemma HalfIs(m: Unit, p: Block, b: Block)
    requires p.order == b.order + 1 && Aligned(m, p) && Aligned(m, b) && Holds(m, p, b.addr)
    ensures b == Low(m, p) || b == High(m, p)
  {
    HalvesAligned(m, p);
    HalvesCover(m, p);
    NotApartFromSelf(m, b);
    AroundUnique(m, b, b.addr);
    if Holds(m, Low(m, p), b.addr) {
      AroundUnique(m, Low(m, p), b.addr);
    } else {
      AroundUnique(m, High(m, p), b.addr);
    }
  }

  lemma SameBlock(m: Unit, b: Block, c: Block)
    requires Aligned(m, b) && Aligned(m, c) && b.order == c.order && !Apart(m, b, c)
    ensures b == c
  {
    hide Size, Aligned;
    var x := if b.addr < c.addr then c.addr else b.addr;
    AroundUnique(m, b, x);
    AroundUnique(m, c, x);
  }

  /** A coalesced set that covers an aligned block, with blocks that are no larger, holds that block. */
  lemma {:induction false} CoverIsBlock(m: Unit, s: set<Block>, q: Block)
    requires Disjoint(m, s) && Coalesced(m, s) && Aligned(m, q)
    requires forall x: nat :: Holds(m, q, x) ==> Covered(m, s, x)
    requires forall b :: b in s ==> b.order <= q.order || Apart(m, b, q)
    ensures q in s
    decreases q.order
  {
    hide Size, Aligned, Around, Low, High;
    if q.order == 0 {
      assert Covered(m, s, q.addr);
      var b :| b in s && Holds(m, b, q.addr);
      SameBlock(m, b, q);
    } else if q !in s {
      HalvesCover(m, q);
      HalvesAligned(m, q);
      HalfOrders(m, q);
      forall b | b in s && b.order >= q.order
        ensures Apart(m, b, q)
      {
        if b.order == q.order && !Apart(m, b, q) {
          SameBlock(m, b, q);
        }
      }
      CoverIsBlock(m, s, Low(m, q));
      CoverIsBlock(m, s, High(m, q));
    }
  }

  lemma HalfOrders(m: Unit, p: Block)
    requires p.order > 0
    ensures Low(m, p).order == High(m, p).order == p.order - 1
  {
  }
}
