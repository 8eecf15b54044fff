/** The allocator of physical memory: one list of free blocks per order. */
module BuddyAllocators {
  import opened Options
  import opened Blocks
  import opened FreeLists
  import opened RangeCutting

  // ---- The partition of memory ----

  /** No aligned block of the order just above the lists lies wholly in the memory. */
  ghost predicate NoWhole(m: Unit, maxOrder: nat, memory: iset<nat>)
  {
    forall p: Block :: p.order == maxOrder && Aligned(m, p) ==> exists x: nat :: Holds(m, p, x) && x !in memory
  }

  /** Free and live blocks are aligned and do not overlap, and together they are the memory. */
  ghost predicate Partitions(m: Unit, free: set<Block>, live: set<Block>, memory: iset<nat>)
  {
    && free !! live
    && Disjoint(m, free + live)
    && forall x: nat :: x in memory <==> Covered(m, free + live, x)
  }

  lemma PartSplit(m: Unit, free: set<Block>, live: set<Block>, memory: iset<nat>, p: Block)
    requires Partitions(m, free, live, memory) && p in free && p.order > 0
    ensures Partitions(m, Halved(m, free, p), live, memory)
    ensures Total(m, Halved(m, free, p)) == Total(m, free)
    ensures Low(m, p) !in free && High(m, p) !in free && Low(m, p) != High(m, p)
  {
    hide Size, Low, High, Total, Covered, Aligned, Apart;
    SplitBlock(m, free + live, p);
    SplitBlock(m, free, p);
    HalvesCover(m, p);
    assert Halved(m, free + live, p) == Halved(m, free, p) + live;
  }

  lemma SplitAddrs(m: Unit, free: set<Block>, live: set<Block>, memory: iset<nat>, p: Block)
    requires Partitions(m, free, live, memory) && p in free && p.order > 0
    ensures Buddies(m, p.order - 1, p.addr) == (Low(m, p).addr, High(m, p).addr)
  {
  }

  lemma PartJoin(m: Unit, free: set<Block>, live: set<Block>, memory: iset<nat>, p: Block)
    requires Partitions(m, free, live, memory) && p.order > 0 && Aligned(m, p) && Low(m, p) in free
    requires High(m, p) in free
    ensures Partitions(m, Joined(m, free, p), live, memory)
    ensures Total(m, Joined(m, free, p)) == Total(m, free)
    ensures p !in free && SameCover(m, free, Joined(m, free, p))
  {
    hide Size, Low, High, Total, Aligned, Apart;
    JoinBlocks(m, free + live, p);
    JoinBlocks(m, free, p);
    assert Joined(m, free + live, p) == Joined(m, free, p) + live;
  }

  // ---- The order just above the lists ----

  /** The whole block of the order just above the lists around an address is covered by `s`. */
  ghost predicate WholeFree(m: Unit, maxOrder: nat, s: set<Block>, addr: nat)
  {
    forall x: nat :: Holds(m, Around(m, maxOrder, addr), x) ==> Covered(m, s, x)
  }

  /** The other half of the block that is next larger around the address. */
  ghost function Sibling(m: Unit, order: nat, addr: nat): Block
  {
    var p := Around(m, order + 1, addr);
    if Around(m, order, addr) == Low(m, p) then High(m, p) else Low(m, p)
  }

  /** From `order` up to the order just above the lists, every sibling on the way is in `s`. */
  ghost predicate AllSiblings(m: Unit, order: nat, maxOrder: nat, s: set<Block>, addr: nat)
  {
    forall o: nat :: order <= o < maxOrder ==> Sibling(m, o, addr) in s
  }

  lemma SiblingPair(m: Unit, cur: Block, addr: nat)
    requires Aligned(m, cur) && Holds(m, cur, addr)
    ensures var p, sibling := Around(m, cur.order + 1, cur.addr), Sibling(m, cur.order, addr);
            && sibling != cur && sibling.order == cur.order && p.order == cur.order + 1
            && {Low(m, p), High(m, p)} == {cur, sibling}
  {
    hide Size, Aligned;
    var p := Around(m, cur.order + 1, cur.addr);
    AroundHolds(m, cur.order + 1, cur.addr);
    AroundOrder(m, cur.order + 1, cur.addr);
    ParentHolds(m, p, cur, addr);
    AroundUnique(m, p, addr);
    AroundUnique(m, cur, addr);
    HalfIs(m, p, cur);
    HalvesCover(m, p);
  }

  /** What merging has done so far: every sibling below `cur` was there, and above it nothing changed. */
  ghost predicate MergedTo(m: Unit, order: nat, was: set<Block>, free: set<Block>, cur: Block, addr: nat)
  {
    && order <= cur.order && AllSiblings(m, order, cur.order, was, addr)
    && forall b: Block :: b.order >= cur.order && b != cur ==> (b in free <==> b in was)
  }

  lemma MergedStep(m: Unit, order: nat, was: set<Block>, free: set<Block>, cur: Block, addr: nat)
    requires MergedTo(m, order, was, free, cur, addr) && cur in free && Aligned(m, cur) && Holds(m, cur, addr)
    ensures var p, sibling := Around(m, cur.order + 1, cur.addr), Sibling(m, cur.order, addr);
            && (Low(m, p) in free && High(m, p) in free <==> sibling in was)
            && (sibling in was ==> MergedTo(m, order, was, Joined(m, free, p), p, addr))
  {
    hide Size, Aligned, Around, Low, High, Sibling;
    var p, sibling := Around(m, cur.order + 1, cur.addr), Sibling(m, cur.order, addr);
    SiblingPair(m, cur, addr);
    assert Low(m, p) in {cur, sibling} && High(m, p) in {cur, sibling};
    assert cur in {Low(m, p), High(m, p)} && sibling in {Low(m, p), High(m, p)};
  }

  lemma MergedStart(m: Unit, was: set<Block>, cur: Block, addr: nat)
    ensures MergedTo(m, cur.order, was, was, cur, addr)
  {
  }

  lemma MergedEnds(m: Unit, order: nat, was: set<Block>, free: set<Block>, cur: Block, addr: nat)
    requires MergedTo(m, order, was, free, cur, addr)
    ensures Sibling(m, cur.order, addr) in was ==> AllSiblings(m, order, cur.order + 1, was, addr)
    ensures Sibling(m, cur.order, addr) !in was ==>
      forall n: nat :: n > cur.order ==> !AllSiblings(m, order, n, was, addr)
  {
    hide Sibling;
  }

  /** Two free halves of such a block cover it. */
  lemma HalvesWhole(m: Unit, maxOrder: nat, free: set<Block>, was: set<Block>, cur: Block, addr: nat)
    requires cur.order + 1 == maxOrder && Aligned(m, cur) && Holds(m, cur, addr) && SameCover(m, was, free)
    requires var p := Around(m, maxOrder, cur.addr); Low(m, p) in free && High(m, p) in free
    ensures WholeFree(m, maxOrder, was, addr)
  {
    hide Size, Aligned, Around, Low, High;
    var p := Around(m, maxOrder, cur.addr);
    AroundHolds(m, maxOrder, cur.addr);
    AroundOrder(m, maxOrder, cur.addr);
    ParentHolds(m, p, cur, addr);
    AroundUnique(m, p, addr);
    HalvesCover(m, p);
    forall x: nat | Holds(m, p, x)
      ensures Covered(m, was, x)
    {
      assert Covered(m, free, x);
    }
  }

  lemma ParentHolds(m: Unit, p: Block, b: Block, x: nat)
    requires p.order == b.order + 1 && Aligned(m, p) && Aligned(m, b) && Holds(m, p, b.addr) && Holds(m, b, x)
    ensures Holds(m, p, x)
  {
    hide Size, Aligned, Low, High;
    HalfIs(m, p, b);
    HalvesCover(m, p);
  }

  /** Coalesced blocks of the lists do not cover such a block. */
  lemma NotWhole(m: Unit, maxOrder: nat, free: set<Block>, was: set<Block>, addr: nat)
    requires Disjoint(m, free) && Coalesced(m, free) && SameCover(m, was, free)
    requires forall b :: b in free ==> b.order < maxOrder
    ensures !WholeFree(m, maxOrder, was, addr)
  {
    hide Size, Aligned, Disjoint, Coalesced, Covered;
    var p := Around(m, maxOrder, addr);
    AroundHolds(m, maxOrder, addr);
    AroundOrder(m, maxOrder, addr);
    if WholeFree(m, maxOrder, was, addr) {
      CoverIsBlock(m, free, p);
    }
  }

  /** Memory without such a block has none that is free. */
  lemma NoneWhole(m: Unit, maxOrder: nat, free: set<Block>, live: set<Block>, memory: iset<nat>, addr: nat)
    requires Partitions(m, free, live, memory) && NoWhole(m, maxOrder, memory)
    ensures !WholeFree(m, maxOrder, free, addr)
  {
    hide Size, Aligned, Disjoint;
    var p := Around(m, maxOrder, addr);
    AroundHolds(m, maxOrder, addr);
    AroundOrder(m, maxOrder, addr);
    var x: nat :| Holds(m, p, x) && x !in memory;
    assert Covered(m, free, x) ==> Covered(m, free + live, x);
  }

  lemma PartHand(m: Unit, free: set<Block>, live: set<Block>, memory: iset<nat>, b: Block)
    requires Partitions(m, free, live, memory) && b in free
    ensures b !in live && Partitions(m, free - {b}, live + {b}, memory)
    ensures Total(m, free) == Total(m, free - {b}) + Size(m, b.order)
    ensures Total(m, live + {b}) == Total(m, live) + Size(m, b.order)
  {
    assert (free - {b}) + (live + {b}) == free + live;
    TotalRemove(m, free, b);
    TotalAdd(m, live, b);
  }

  lemma FreeDisjoint(m: Unit, free: set<Block>, live: set<Block>, memory: iset<nat>)
    requires Partitions(m, free, live, memory)
    ensures Disjoint(m, free)
  {
  }

  /** The orders from the smallest fitting one on are the orders that fit. */
  lemma LargeEnough(m: Unit, maxOrder: nat, order: nat, size: nat)
    requires order <= maxOrder && (order < maxOrder ==> size <= Size(m, order))
    requires forall o :: 0 <= o < order ==> Size(m, o) < size
    ensures forall o :: 0 <= o < maxOrder ==> (size <= Size(m, o) <==> order <= o)
  {
    forall o | 0 <= o < maxOrder
      ensures size <= Size(m, o) <==> order <= o
    {
      if order < o {
        SizeGrows(m, order, o);
      }
    }
  }

  lemma PartReturn(m: Unit, free: set<Block>, live: set<Block>, memory: iset<nat>, b: Block)
    requires Partitions(m, free, live, memory) && b in live
    ensures b !in free && Partitions(m, free + {b}, live - {b}, memory)
    ensures Total(m, live) == Total(m, live - {b}) + Size(m, b.order)
    ensures Total(m, free + {b}) == Total(m, free) + Size(m, b.order)
  {
    assert (free + {b}) + (live - {b}) == free + live;
    TotalRemove(m, live, b);
    TotalAdd(m, free, b);
  }

  // ---- Coalescing ----

  /** Splitting a block adds no buddies but the two halves. */
  lemma SplitCoalesced(m: Unit, free: set<Block>, p: Block)
    requires Disjoint(m, free) && p in free && p.order > 0 && CoalescedBut(m, free, p)
    ensures CoalescedBut(m, Halved(m, free, p), Low(m, p))
  {
    hide Size, Aligned, Around, Low, High;
    var low, high, s := Low(m, p), High(m, p), Halved(m, free, p);
    SplitDisjoint(m, free, p);
    forall b, c | b in s && c in s && b != low && c != low
      ensures !AreBuddies(m, b, c)
    {
      if AreBuddies(m, b, c) && (b == high || c == high) {
        BuddyOfHigh(m, p, if b == high then c else b);
      }
    }
  }

  lemma BuddyOfHigh(m: Unit, p: Block, c: Block)
    requires p.order > 0 && Aligned(m, p) && Aligned(m, c)
    requires AreBuddies(m, High(m, p), c)
    ensures c == Low(m, p)
  {
    HalvesAligned(m, p);
    hide Size, Aligned, Around;
    BuddiesAreHalves(m, High(m, p), c);
  }

  /** Joining two buddies leaves no buddies but those of the new block. */
  lemma JoinCoalesced(m: Unit, free: set<Block>, p: Block, cur: Block)
    requires p.order > 0 && CoalescedBut(m, free, cur) && (cur == Low(m, p) || cur == High(m, p))
    ensures CoalescedBut(m, Joined(m, free, p), p)
  {
  }

  /** Without its buddy, the last block is no exception. */
  lemma NowCoalesced(m: Unit, free: set<Block>, cur: Block)
    requires Disjoint(m, free) && cur in free && CoalescedBut(m, free, cur)
    requires var p := Around(m, cur.order + 1, cur.addr); Low(m, p) !in free || High(m, p) !in free
    ensures Coalesced(m, free)
  {
    hide Size, Aligned, Around, Low, High, Apart;
    forall b, c | b in free && c in free
      ensures !AreBuddies(m, b, c)
    {
      if AreBuddies(m, b, c) && (b == cur || c == cur) {
        BuddiesAreHalves(m, b, c);
      }
    }
  }

  lemma OneLess(m: Unit, free: set<Block>, cur: Block)
    ensures CoalescedBut(m, free, cur) ==> Coalesced(m, free - {cur})
    ensures Coalesced(m, free) ==> CoalescedBut(m, free + {cur}, cur)
  {
  }

  /** One round of merging `cur`: either its parent becomes the only exception, or there is none. */
  lemma MergeStep(m: Unit, free: set<Block>, live: set<Block>, memory: iset<nat>, cur: Block)
    requires Partitions(m, free, live, memory) && cur in free
    ensures var p := Around(m, cur.order + 1, cur.addr);
            if Low(m, p) in free && High(m, p) in free
            then
              && Total(m, Joined(m, free, p)) == Total(m, free) && SameCover(m, free, Joined(m, free, p))
              && (CoalescedBut(m, free, cur) ==> CoalescedBut(m, Joined(m, free, p), p))
            else CoalescedBut(m, free, cur) ==> Coalesced(m, free)
  {
    hide Size, Partitions, Aligned, Around, Low, High, Total, CoalescedBut, Coalesced;
    var p := Around(m, cur.order + 1, cur.addr);
    FreeDisjoint(m, free, live, memory);
    AroundHolds(m, cur.order + 1, cur.addr);
    AroundOrder(m, cur.order + 1, cur.addr);
    HalfIs(m, p, cur);
    if Low(m, p) in free && High(m, p) in free {
      PartJoin(m, free, live, memory, p);
      if CoalescedBut(m, free, cur) {
        JoinCoalesced(m, free, p, cur);
      }
    } else if CoalescedBut(m, free, cur) {
      NowCoalesced(m, free, cur);
    }
  }

  lemma FreeAligned(m: Unit, free: set<Block>, live: set<Block>, memory: iset<nat>, b: Block)
    requires Partitions(m, free, live, memory) && b in free
    ensures Aligned(m, b) && Holds(m, b, b.addr) && SameCover(m, free, free)
  {
  }

  /** The address stays in the block that is being merged. */
  lemma MergeHolds(m: Unit, free: set<Block>, live: set<Block>, memory: iset<nat>, was: set<Block>, cur: Block,
                   addr: nat)
    requires Partitions(m, free, live, memory) && cur in free && Holds(m, cur, addr) && SameCover(m, was, free)
    ensures var p := Around(m, cur.order + 1, cur.addr);
            Aligned(m, cur) && Holds(m, p, addr) && p == Block(cur.order + 1, p.addr)
    ensures forall s :: SameCover(m, free, s) ==> SameCover(m, was, s)
  {
    hide Size, Around, Covered;
    FreeAligned(m, free, live, memory, cur);
    AroundHolds(m, cur.order + 1, cur.addr);
    AroundOrder(m, cur.order + 1, cur.addr);
    ParentHolds(m, Around(m, cur.order + 1, cur.addr), cur, addr);
  }

  // ---- Adding memory ----

  ghost predicate Outside(m: Unit, s: set<Block>, start: nat, end: nat)
  {
    forall b :: b in s ==> End(m, b) <= start || end <= b.addr
  }

  /** Blocks of memory are outside a range that has nothing to do with it. */
  lemma MemoryOutside(m: Unit, free: set<Block>, live: set<Block>, memory: iset<nat>, start: nat, end: nat)
    requires Partitions(m, free, live, memory) && start < end && forall x: nat :: start <= x < end ==> x !in memory
    ensures Outside(m, free + live, start, end)
  {
    hide Size;
    forall b | b in free + live
      ensures End(m, b) <= start || end <= b.addr
    {
      var x := if start < b.addr then b.addr else start;
      assert Holds(m, b, x) ==> Covered(m, free + live, x);
    }
  }

  lemma OutsidePart(m: Unit, free: set<Block>, live: set<Block>, start: nat, end: nat)
    requires Outside(m, free + live, start, end)
    ensures Outside(m, free, start, end)
  {
  }

  lemma NoMemory(m: Unit, free: set<Block>, live: set<Block>, memory: iset<nat>)
    requires Partitions(m, free, live, memory)
    ensures memory == iset{} ==> free == {}
  {
    hide Size;
    if free != {} {
      var b :| b in free;
      assert Holds(m, b, b.addr) && b in free + live;
      assert b.addr in memory;
    }
  }

  /** The memory after a range was added. */
  ghost function Extended(m: Unit, memory: iset<nat>, start: nat, end: nat): iset<nat>
  {
    iset x: nat | x in memory || Accepted(m, start, end, x)
  }

  lemma PartAdd(m: Unit, maxOrder: nat, free: set<Block>, live: set<Block>, memory: iset<nat>, start: nat, end: nat,
                added: set<Block>)
    requires Partitions(m, free, live, memory) && Pieces(m, maxOrder, start, end, added)
    requires forall x: nat :: start <= x < end ==> x !in memory
    ensures free !! added && Partitions(m, free + added, live, Extended(m, memory, start, end))
    ensures Total(m, free + added) == Total(m, free) + Total(m, added)
  {
    hide Size, Covered, Accepted, Aligned, Around, Total;
    forall b, c | b in free + live && c in added
      ensures Apart(m, b, c) && Apart(m, c, b) && b != c
    {
      assert PieceIn(m, maxOrder, start, start, end, c);
      MemoryOutside(m, free, live, memory, start, end);
    }
    TotalUnion(m, free, added);
    assert free + added + live == free + live + added;
    forall x: nat
      ensures x in Extended(m, memory, start, end) <==> Covered(m, free + added + live, x)
    {
      CoveredUnion(m, free + live, added, x);
    }
    hide Apart;
  }

  lemma NoWholeInRange(m: Unit, maxOrder: nat, memory: iset<nat>, start: nat, end: nat)
    requires maxOrder >= 1 && NoWhole(m, maxOrder, Extended(m, memory, start, end))
    ensures !HoldsWhole(m, maxOrder, start, end)
  {
    hide Size, Aligned, Around;
    forall p: Block | p.order == maxOrder && Aligned(m, p)
      ensures !Inside(m, p, start, end)
    {
      var x: nat :| Holds(m, p, x) && x !in Extended(m, memory, start, end);
      AcceptedIn(m, p, x);
    }
  }

  class BuddyAllocator {
    const maxOrder: nat
    const minSize: Unit
    var freeBlocks: seq<seq<nat>>
    var amountFree: nat
    var amountAllocated: nat
    ghost var live: set<Block>
    ghost var memory: iset<nat>

    ghost predicate Partition()
      reads this
    {
      && maxOrder >= 1 && |freeBlocks| == maxOrder && NoDup(freeBlocks)
      && (forall b :: b in live ==> b.order < maxOrder)
      && Partitions(minSize, FreeSet(freeBlocks), live, memory)
    }

    ghost predicate Valid()
      reads this
    {
      && Partition()
      && amountFree == Total(minSize, FreeSet(freeBlocks))
      && amountAllocated == Total(minSize, live)
    }

    /** No two buddies are both free. */
    ghost predicate IsCoalesced()
      reads this
    {
      Coalesced(minSize, FreeSet(freeBlocks))
    }

    constructor (maxOrder: nat, minSize: Unit)
      requires maxOrder >= 1
      ensures Valid() && IsCoalesced() && FreeSet(freeBlocks) == {} && live == {} && memory == iset{}
      ensures this.maxOrder == maxOrder && this.minSize == minSize
    {
      this.maxOrder, this.minSize := maxOrder, minSize;
      freeBlocks := seq(maxOrder, _ => []);
      amountFree, amountAllocated := 0, 0;
      live, memory := {}, iset{};
      new;
      assert FreeSet(freeBlocks) == {};
    }

    /** Split a free block into two free halves. */
    method Split(order: nat, addr: nat) returns (low: nat, high: nat)
      requires Partition() && 0 < order < maxOrder && Block(order, addr) in FreeSet(freeBlocks)
      modifies this`freeBlocks
      ensures Partition()
      ensures FreeSet(freeBlocks) == Halved(minSize, old(FreeSet(freeBlocks)), Block(order, addr))
      ensures low == addr && high == addr + Size(minSize, order - 1)
    {
      hide Size, Buddies, Partitions, FreeSet, NoDup, NoWhole, SwapRemove;
      ghost var p := Block(order, addr);
      var halves := Buddies(minSize, order - 1, addr);
      low, high := halves.0, halves.1;
      SplitAddrs(minSize, FreeSet(freeBlocks), live, memory, p);
      PartSplit(minSize, FreeSet(freeBlocks), live, memory, p);
      FreeIff(freeBlocks, p);
      var i := Position(freeBlocks[order], addr);
      Removed(freeBlocks, order, i.value);
      freeBlocks := Remove(freeBlocks, order, i.value);
      Pushed(freeBlocks, order - 1, low);
      freeBlocks := Push(freeBlocks, order - 1, low);
      Pushed(freeBlocks, order - 1, high);
      freeBlocks := Push(freeBlocks, order - 1, high);
      assert FreeSet(freeBlocks) == Halved(minSize, old(FreeSet(freeBlocks)), p);
    }

    /** Merge a free block with its buddy if both are free. `ok` is false if that makes a block of an
        order beyond the last list, which stops the kernel. */
    method Merge(order: nat, addr: nat) returns (ok: bool, r: Option<nat>)
      requires Partition() && order <= maxOrder
      modifies this`freeBlocks
      ensures var p := Around(minSize, order + 1, addr);
              var free := old(FreeSet(freeBlocks));
              var both := Low(minSize, p) in free && High(minSize, p) in free;
              && (!ok <==> order + 1 == maxOrder && both)
              && (ok ==> Partition())
              && (ok && both ==>
                    r == Some(p.addr) && order + 1 < maxOrder && FreeSet(freeBlocks) == Joined(minSize, free, p))
              && (ok && !both ==> r == None && freeBlocks == old(freeBlocks))
    {
      hide Size, Buddies, Partitions, FreeSet, NoDup, NoWhole, Remove;
      ghost var p := Around(minSize, order + 1, addr);
      BuddiesAround(minSize, order, addr);
      AroundHolds(minSize, order + 1, addr);
      FreeIff(freeBlocks, Low(minSize, p));
      FreeIff(freeBlocks, High(minSize, p));
      if order + 1 > maxOrder {
        return true, None;
      }
      var halves := Buddies(minSize, order, addr);
      var low := Position(freeBlocks[order], halves.0);
      if low.None? {
        return true, None;
      }
      var high := Position(freeBlocks[order], halves.1);
      if high.None? {
        return true, None;
      }
      PartJoin(minSize, FreeSet(freeBlocks), live, memory, p);
      var first, second := Larger(low.value, high.value), Smaller(low.value, high.value);
      RemovedBoth(freeBlocks, order, first, second);
      freeBlocks := Remove(freeBlocks, order, first);
      freeBlocks := Remove(freeBlocks, order, second);
      if order + 1 == maxOrder {
        return false, None;
      }
      Pushed(freeBlocks, order + 1, halves.0);
      freeBlocks := Push(freeBlocks, order + 1, halves.0);
      assert FreeSet(freeBlocks) == Joined(minSize, old(FreeSet(freeBlocks)), p);
      return true, Some(halves.0);
    }

    /** A free block of the order, made by splitting a larger one if need be; it stays in its list. */
    method ReqBlock(order: nat) returns (r: Option<nat>)
      requires Partition()
      modifies this`freeBlocks
      ensures Partition() && Total(minSize, FreeSet(freeBlocks)) == old(Total(minSize, FreeSet(freeBlocks)))
      ensures r.None? <==> forall o :: order <= o < maxOrder ==> old(freeBlocks)[o] == []
      ensures r.None? ==> freeBlocks == old(freeBlocks)
      ensures r.Some? ==> order < maxOrder && Block(order, r.value) in FreeSet(freeBlocks)
      ensures order < maxOrder && old(freeBlocks)[order] != [] ==> freeBlocks == old(freeBlocks)
      ensures r.Some? && old(IsCoalesced()) ==> CoalescedBut(minSize, FreeSet(freeBlocks), Block(order, r.value))
      decreases maxOrder - order
    {
      hide Size, Partitions, FreeSet, NoDup, NoWhole, Total, Apart, Aligned, Disjoint, Covered;
      if order >= maxOrder {
        return None;
      }
      if freeBlocks[order] != [] {
        FreeIff(freeBlocks, Block(order, freeBlocks[order][0]));
        return Some(freeBlocks[order][0]);
      }
      var above := ReqBlock(order + 1);
      if above.None? {
        return None;
      }
      ghost var p := Block(order + 1, above.value);
      PartSplit(minSize, FreeSet(freeBlocks), live, memory, p);
      FreeDisjoint(minSize, FreeSet(freeBlocks), live, memory);
      if old(IsCoalesced()) {
        SplitCoalesced(minSize, FreeSet(freeBlocks), p);
      }
      var low, _ := Split(order + 1, above.value);
      return Some(low);
    }

    /** Hand out a block of the smallest order that is large enough. */
    method Palloc(size: nat) returns (r: Option<Block>)
      requires Valid()
      modifies this`freeBlocks, this`amountFree, this`amountAllocated, this`live
      ensures Valid() && (old(IsCoalesced()) ==> IsCoalesced())
      ensures r.None? <==> forall o :: 0 <= o < maxOrder && size <= Size(minSize, o) ==> old(freeBlocks)[o] == []
      ensures r.None? ==> freeBlocks == old(freeBlocks) && live == old(live)
      ensures r.Some? ==>
        && r.value !in old(live) && live == old(live) + {r.value}
        && size <= Size(minSize, r.value.order) && (r.value.order > 0 ==> Size(minSize, r.value.order - 1) < size)
        && amountAllocated == old(amountAllocated) + Size(minSize, r.value.order)
        && amountFree == old(amountFree) - Size(minSize, r.value.order)
        && r.value.order < maxOrder
        && (old(freeBlocks)[r.value.order] != [] ==>
              r.value in old(FreeSet(freeBlocks)) && FreeSet(freeBlocks) == old(FreeSet(freeBlocks)) - {r.value})
    {
      hide Size, Partitions, FreeSet, NoDup, NoWhole, Total, CoalescedBut, Coalesced, SwapRemove;
      var order := 0;
      while order < maxOrder && Size(minSize, order) < size
        invariant order <= maxOrder
        invariant forall o :: 0 <= o < order ==> Size(minSize, o) < size
      {
        order := order + 1;
      }
      LargeEnough(minSize, maxOrder, order, size);
      if order == maxOrder {
        return None;
      }
      var addr := ReqBlock(order);
      if addr.None? {
        return None;
      }
      var b := Block(order, addr.value);
      ghost var free := FreeSet(freeBlocks);
      FreeIff(freeBlocks, b);
      PartHand(minSize, free, live, memory, b);
      OneLess(minSize, free, b);
      amountFree := amountFree - Size(minSize, order);
      amountAllocated := amountAllocated + Size(minSize, order);
      var i := Position(freeBlocks[order], addr.value);
      Removed(freeBlocks, order, i.value);
      freeBlocks := Remove(freeBlocks, order, i.value);
      live := live + {b};
      return Some(b);
    }

    /** Merge a free block with its buddies as far as possible. */
    method MergeUp(order: nat, addr: nat) returns (ok: bool)
      requires Partition() && Block(order, addr) in FreeSet(freeBlocks)
      modifies this`freeBlocks
      ensures ok ==> Partition() && Total(minSize, FreeSet(freeBlocks)) == old(Total(minSize, FreeSet(freeBlocks)))
      ensures !ok <==> AllSiblings(minSize, order, maxOrder, old(FreeSet(freeBlocks)), addr)
      ensures !ok ==> WholeFree(minSize, maxOrder, old(FreeSet(freeBlocks)), addr)
      ensures old(CoalescedBut(minSize, FreeSet(freeBlocks), Block(order, addr))) ==>
        && (ok ==> IsCoalesced())
        && (ok <==> !WholeFree(minSize, maxOrder, old(FreeSet(freeBlocks)), addr))
    {
      hide Size, Partitions, FreeSet, NoDup, NoWhole, Total, CoalescedBut, Coalesced, Low, High, Around;
      hide Aligned, WholeFree, SameCover, Sibling, MergedTo;
      var cur := Block(order, addr);
      var merging := true;
      ghost var was := FreeSet(freeBlocks);
      FreeAligned(minSize, was, live, memory, cur);
      MergedStart(minSize, was, cur, addr);
      ok := true;
      while merging
        invariant ok && Partition() && Total(minSize, FreeSet(freeBlocks)) == old(Total(minSize, FreeSet(freeBlocks)))
        invariant cur in FreeSet(freeBlocks) && Holds(minSize, cur, addr)
        invariant SameCover(minSize, was, FreeSet(freeBlocks))
        invariant MergedTo(minSize, order, was, FreeSet(freeBlocks), cur, addr)
        invariant !merging ==> !AllSiblings(minSize, order, maxOrder, was, addr)
        invariant old(CoalescedBut(minSize, FreeSet(freeBlocks), Block(order, addr))) ==>
                    CoalescedBut(minSize, FreeSet(freeBlocks), cur) && (!merging ==> IsCoalesced())
        decreases maxOrder - cur.order, merging
      {
        FreeIff(freeBlocks, cur);
        MergeStep(minSize, FreeSet(freeBlocks), live, memory, cur);
        MergeHolds(minSize, FreeSet(freeBlocks), live, memory, was, cur, addr);
        MergedStep(minSize, order, was, FreeSet(freeBlocks), cur, addr);
        MergedEnds(minSize, order, was, FreeSet(freeBlocks), cur, addr);
        ghost var before := FreeSet(freeBlocks);
        var merged;
        ok, merged := Merge(cur.order, cur.addr);
        if !ok {
          HalvesWhole(minSize, maxOrder, before, was, cur, addr);
          return;
        }
        if merged.Some? {
          cur := Block(cur.order + 1, merged.value);
        } else {
          merging := false;
        }
      }
      if IsCoalesced() {
        FreeDisjoint(minSize, FreeSet(freeBlocks), live, memory);
        forall b | b in FreeSet(freeBlocks)
          ensures b.order < maxOrder
        {
          FreeIff(freeBlocks, b);
        }
        NotWhole(minSize, maxOrder, FreeSet(freeBlocks), was, addr);
      }
    }

    /** Take back a block. This stops the kernel exactly when, from its own order up, every sibling of the
        block is free; with coalesced lists that is when it completes a free block of an order beyond the last
        list. */
    method Release(b: Block) returns (ok: bool)
      requires Valid() && b in live
      modifies this`freeBlocks, this`amountFree, this`amountAllocated, this`live
      ensures !ok <==> AllSiblings(minSize, b.order, maxOrder, old(FreeSet(freeBlocks)) + {b}, b.addr)
      ensures old(IsCoalesced()) ==> (ok <==> !WholeFree(minSize, maxOrder, old(FreeSet(freeBlocks)) + {b}, b.addr))
      ensures !ok ==> WholeFree(minSize, maxOrder, old(FreeSet(freeBlocks)) + {b}, b.addr)
      ensures NoWhole(minSize, maxOrder, memory) ==> ok
      ensures ok ==> Valid() && (old(IsCoalesced()) ==> IsCoalesced())
      ensures live == old(live) - {b}
      ensures ok ==>
        && amountFree == old(amountFree) + Size(minSize, b.order)
        && amountAllocated == old(amountAllocated) - Size(minSize, b.order)
    {
      hide Size, Partitions, FreeSet, NoDup, NoWhole, Total, CoalescedBut, Coalesced, WholeFree, AllSiblings;
      ghost var was := FreeSet(freeBlocks);
      PartReturn(minSize, was, live, memory, b);
      OneLess(minSize, was, b);
      if NoWhole(minSize, maxOrder, memory) {
        NoneWhole(minSize, maxOrder, was + {b}, live - {b}, memory, b.addr);
      }
      Pushed(freeBlocks, b.order, b.addr);
      freeBlocks := Push(freeBlocks, b.order, b.addr);
      live := live - {b};
      ok := MergeUp(b.order, b.addr);
      if ok {
        amountAllocated := amountAllocated - Size(minSize, b.order);
        amountFree := amountFree + Size(minSize, b.order);
      }
    }

    /** Add the whole blocks of a range to the free lists, largest first. `ok` is false if a block has
        an order beyond the last list, which stops the kernel. */
    method AddBlocks(start: nat, end: nat) returns (ok: bool, ghost added: set<Block>)
      requires maxOrder >= 1 && |freeBlocks| == maxOrder && NoDup(freeBlocks)
      requires start < end ==> Outside(minSize, FreeSet(freeBlocks), start, end)
      modifies this`freeBlocks, this`amountFree
      ensures ok <==> !HoldsWhole(minSize, maxOrder, start, end)
      ensures ok ==>
        && |freeBlocks| == maxOrder && NoDup(freeBlocks)
        && FreeSet(freeBlocks) == old(FreeSet(freeBlocks)) + added && old(FreeSet(freeBlocks)) !! added
        && amountFree == old(amountFree) + Total(minSize, added)
        && Pieces(minSize, maxOrder, start, end, added)
      decreases end - start
    {
      hide Size, Buddies, FreeSet, NoDup, Total, CutDown, Truncated, Pieces, HoldsWhole, Around;
      var limit: nat := end;
      ok, added := true, {};
      TotalEmpty(minSize);
      CutStart(minSize, maxOrder, start, end);
      for split := maxOrder downto 0
        invariant ok && |freeBlocks| == maxOrder && NoDup(freeBlocks)
        invariant FreeSet(freeBlocks) == old(FreeSet(freeBlocks)) + added && old(FreeSet(freeBlocks)) !! added
        invariant amountFree == old(amountFree) + Total(minSize, added)
        invariant CutDown(minSize, maxOrder, start, limit, end, split, added)
      {
        var order := split + 1;
        var halves := Buddies(minSize, split, start);
        var blockEnd := halves.1 + Size(minSize, split);
        BlockAround(minSize, split, start);
        if limit > blockEnd {
          ghost var rest;
          BeforeLimit(minSize, maxOrder, start, limit, end, split + 1, added);
          ok, rest := AddBlocks(blockEnd, limit);
          if !ok {
            WholeInPart(minSize, maxOrder, start, end, blockEnd, limit);
            return;
          }
          Rest(minSize, maxOrder, start, limit, end, order, added, rest);
          TotalUnion(minSize, added, rest);
          added := added + rest;
          limit := blockEnd;
        } else {
          NoRest(minSize, maxOrder, start, limit, end, order, added);
        }
        if halves.0 < start || blockEnd > limit {
          Skip(minSize, maxOrder, start, limit, end, order, added);
        } else {
          Fits(minSize, maxOrder, start, limit, end, order, added);
          if order == maxOrder {
            return false, {};
          }
          Pushed(freeBlocks, order, start);
          TotalAdd(minSize, added, Block(order, start));
          freeBlocks := Push(freeBlocks, order, halves.0);
          amountFree := amountFree + Size(minSize, order);
          added := added + {Block(order, halves.0)};
          return;
        }
      }
      Done(minSize, maxOrder, start, limit, end, added);
    }

    /** Add the memory of a range that was not managed before. */
    method AddMemory(start: nat, end: nat) returns (ok: bool, ghost added: set<Block>)
      requires Valid() && forall x: nat :: start <= x < end ==> x !in memory
      modifies this`freeBlocks, this`amountFree, this`memory
      ensures ok <==> !HoldsWhole(minSize, maxOrder, start, end)
      ensures NoWhole(minSize, maxOrder, Extended(minSize, old(memory), start, end)) ==> ok
      ensures ok ==>
        && Valid() && memory == Extended(minSize, old(memory), start, end)
        && FreeSet(freeBlocks) == old(FreeSet(freeBlocks)) + added && Pieces(minSize, maxOrder, start, end, added)
        && (old(memory) == iset{} ==> IsCoalesced())
    {
      hide Size, Partitions, FreeSet, NoDup, NoWhole, Total, Outside, Extended, Coalesced, Pieces, HoldsWhole;
      if NoWhole(minSize, maxOrder, Extended(minSize, memory, start, end)) {
        NoWholeInRange(minSize, maxOrder, memory, start, end);
      }
      if start < end {
        MemoryOutside(minSize, FreeSet(freeBlocks), live, memory, start, end);
        OutsidePart(minSize, FreeSet(freeBlocks), live, start, end);
      }
      ghost var was := FreeSet(freeBlocks);
      NoMemory(minSize, was, live, memory);
      ok, added := AddBlocks(start, end);
      if ok {
        PartAdd(minSize, maxOrder, was, live, memory, start, end, added);
        PiecesCoalesced(minSize, maxOrder, start, end, added);
        memory := Extended(minSize, memory, start, end);
        assert was == {} ==> was + added == added;
      }
    }
  }

  // ---- Two halves that are added separately ----

  /** A range that is one aligned block becomes that block. */
  lemma OnePiece(m: Unit, k: nat, q: Block, added: set<Block>)
    requires q.order == k >= 1 && Aligned(m, q) && Pieces(m, k + 1, q.addr, End(m, q), added)
    ensures added == {q}
  {
    hide Size, Aligned, Around, Coalesced;
    PiecesCoalesced(m, k + 1, q.addr, End(m, q), added);
    forall x: nat | Holds(m, q, x)
      ensures Covered(m, added, x)
    {
      AcceptedIn(m, q, x);
    }
    forall b | b in added
      ensures b.order <= k && !Apart(m, b, q)
    {
      assert PieceIn(m, k + 1, q.addr, q.addr, End(m, q), b);
    }
    CoverIsBlock(m, added, q);
  }

  lemma TooSmall(m: Unit, k: nat, start: nat)
    ensures !HoldsWhole(m, k + 1, start, start + Size(m, k))
  {
  }

  /** The second half of the order just above the lists is not managed yet. */
  lemma OtherHalf(m: Unit, k: nat)
    requires k >= 1
    ensures forall x: nat :: Size(m, k) <= x < 2 * Size(m, k) ==> x !in Extended(m, iset{}, 0, Size(m, k))
  {
    hide Size, Aligned;
    forall x: nat | Size(m, k) <= x < 2 * Size(m, k)
      ensures x !in Extended(m, iset{}, 0, Size(m, k))
    {
      AroundHolds(m, 1, x);
    }
  }

  lemma OrderOf(m: Unit, k: nat, order: nat)
    requires Size(m, k) <= Size(m, order) && (order > 0 ==> Size(m, order - 1) < Size(m, k))
    ensures order == k
  {
    if order < k {
      SizeGrows(m, order, k);
    } else if k < order - 1 {
      SizeGrows(m, k, order - 1);
    }
  }

  /** Either half together with the other is the whole. */
  lemma HalvesAreWhole(m: Unit, k: nat, free: set<Block>, b: Block)
    requires free == {Block(k, 0), Block(k, Size(m, k))} && b in free
    ensures WholeFree(m, k + 1, free, b.addr) && Coalesced(m, free - {b}) && free - {b} + {b} == free
  {
    var p := Block(k + 1, 0);
    assert Size(m, k + 1) == 2 * Size(m, k);
    hide Size;
    AroundUnique(m, p, b.addr);
    forall x: nat | Holds(m, p, x)
      ensures Covered(m, free, x)
    {
      assert Holds(m, Block(k, 0), x) || Holds(m, Block(k, Size(m, k)), x);
    }
  }

  /** Each half of a block of the order just above the lists can be added, and one of them handed out. Its
      return then stops the kernel. */
  method HalvesMeet(k: nat, minSize: Unit) returns (added: bool, handed: bool, returned: bool)
    requires k >= 1
    ensures added && handed && !returned
  {
    hide Size, Partitions, FreeSet, NoDup, NoWhole, Total, HoldsWhole, Pieces, Extended, Coalesced, WholeFree;
    var half := Size(minSize, k);
    var a := new BuddyAllocator(k + 1, minSize);
    TooSmall(minSize, k, 0);
    TooSmall(minSize, k, half);
    ghost var first, second;
    added, first := a.AddMemory(0, half);
    OnePiece(minSize, k, Block(k, 0), first);
    OtherHalf(minSize, k);
    added, second := a.AddMemory(half, 2 * half);
    OnePiece(minSize, k, Block(k, half), second);
    ghost var free := {Block(k, 0), Block(k, half)};
    assert FreeSet(a.freeBlocks) == free;
    FreeIff(a.freeBlocks, Block(k, 0));
    var b := a.Palloc(half);
    handed := b.Some?;
    OrderOf(minSize, k, b.value.order);
    HalvesAreWhole(minSize, k, free, b.value);
    returned := a.Release(b.value);
  }
}
