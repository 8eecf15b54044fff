/** Allocations: which entries of which tables they own, and the address range they describe. */
module Allocations {
  import opened Layout
  import opened PageTables

  /** `offset` is the distance from the start of the enclosing allocation. */
  datatype Item =
    | Page(index: nat, offset: nat)
    | SubTable(index: nat, offset: nat, alloc: Alloc)

  datatype Alloc = Alloc(items: seq<Item>, pageSize: nat)

  function StartAddr(a: Alloc): nat
  {
    if a.items == [] then 0
    else match a.items[0]
      case Page(index, _) => index * a.pageSize
      case SubTable(index, _, sub) => StartAddr(sub) + index * a.pageSize
  }

  function EndAddr(a: Alloc): nat
  {
    if a.items == [] then 0
    else match a.items[|a.items| - 1]
      case Page(index, _) => (index + 1) * a.pageSize
      case SubTable(index, _, sub) => EndAddr(sub) + index * a.pageSize
  }

  // ---- Well-formed allocations ----

  /** First covered offset inside the item's slot. */
  ghost function Lo(item: Item): nat
  {
    if item.Page? then 0 else StartAddr(item.alloc)
  }

  /** End of the covered offsets inside the item's slot. */
  ghost function Hi(level: nat, item: Item): nat
  {
    if item.Page? then PageSize(level) else EndAddr(item.alloc)
  }

  /** `huge` is the highest level whose entries may map pages themselves. */
  ghost predicate ItemShape(huge: nat, level: nat, item: Item)
    decreases level, 0
  {
    && item.index < NPAGES
    && match item
      case Page(_, _) => level <= huge
      case SubTable(_, _, sub) => level > 1 && Shape(huge, level - 1, sub)
  }

  /** One contiguous range: consecutive slots, only the first may start late and only the last may
      end early, and every offset is the total size of the items before. */
  ghost predicate Shape(huge: nat, level: nat, a: Alloc)
    decreases level, 1
  {
    && level >= 1
    && a.pageSize == PageSize(level)
    && a.items != []
    && (forall k :: 0 <= k < |a.items| ==> ItemShape(huge, level, a.items[k]))
    && (forall k :: 0 <= k < |a.items| ==> a.items[k].index == a.items[0].index + k)
    && (forall k :: 0 < k < |a.items| ==> Lo(a.items[k]) == 0)
    && (forall k :: 0 <= k < |a.items| - 1 ==> Hi(level, a.items[k]) == PageSize(level))
    && a.items[0].offset == 0
    && (forall k :: 0 < k < |a.items| ==>
          a.items[k].offset == a.items[k - 1].offset + Hi(level, a.items[k - 1]) - Lo(a.items[k - 1]))
  }

  /** The tables really hold what the allocation says it owns. */
  ghost predicate Backed(a: Alloc, t: Table)
  {
    && WellSized(t)
    && forall k :: 0 <= k < |a.items| ==> ItemBacked(a.items[k], t)
  }

  ghost predicate ItemBacked(item: Item, t: Table)
    requires WellSized(t)
  {
    && item.index < NPAGES
    && match item
      case Page(i, _) => t.subs[i].None? && (t.entries[i].Absent? || t.entries[i].Mapped?)
      case SubTable(i, _, sub) => t.subs[i].Some? && Backed(sub, t.subs[i].value)
  }

  ghost predicate Covers(a: Alloc, v: nat)
  {
    StartAddr(a) <= v < EndAddr(a)
  }

  /** Slot `i` belongs to the allocation and its item covers offset `o`. */
  ghost predicate SlotCovered(level: nat, a: Alloc, i: nat, o: nat)
    requires a.items != []
  {
    var k := i - a.items[0].index;
    0 <= k < |a.items| && Lo(a.items[k]) <= o < Hi(level, a.items[k])
  }

  // ---- Facts about the range ----

  lemma NonEmpty(huge: nat, level: nat, a: Alloc)
    requires Shape(huge, level, a)
    ensures level >= 1 && a.items != []
  {
  }

  lemma {:induction false} ShapeBounds(huge: nat, level: nat, a: Alloc)
    requires Shape(huge, level, a)
    ensures StartAddr(a) < EndAddr(a) <= Span(level)
    ensures forall k :: 0 <= k < |a.items| ==> Lo(a.items[k]) < Hi(level, a.items[k]) <= PageSize(level)
    decreases level, 1
  {
    hide PageSize, StartAddr, EndAddr, Lo, Hi, SlotAddr;
    forall k | 0 <= k < |a.items|
      ensures Lo(a.items[k]) < Hi(level, a.items[k]) <= PageSize(level)
    {
      assert ItemShape(huge, level, a.items[k]);
      ItemBounds(huge, level, a.items[k]);
    }
    var first, last := a.items[0], a.items[|a.items| - 1];
    assert ItemShape(huge, level, last) && last.index == first.index + (|a.items| - 1);
    Ends(huge, level, a);
    SlotAddrStep(level, last.index, NPAGES);
    if |a.items| > 1 {
      SlotAddrStep(level, first.index, last.index);
    }
  }

  lemma {:induction false} ItemBounds(huge: nat, level: nat, item: Item)
    requires ItemShape(huge, level, item)
    ensures Lo(item) < Hi(level, item) <= PageSize(level)
    decreases level, 0
  {
    hide PageSize, StartAddr, EndAddr;
    if item.SubTable? {
      ShapeBounds(huge, level - 1, item.alloc);
      SpanBelow(level);
    }
  }

  lemma RangeEnds(huge: nat, level: nat, a: Alloc)
    requires Shape(huge, level, a)
    ensures StartAddr(a) == SlotAddr(level, a.items[0].index) + Lo(a.items[0])
    ensures EndAddr(a) == SlotAddr(level, a.items[0].index + |a.items| - 1) + Hi(level, a.items[|a.items| - 1])
  {
    hide PageSize;
    var last := a.items[|a.items| - 1];
    assert last.index == a.items[0].index + (|a.items| - 1);
    if last.Page? {
      MulSucc(last.index, PageSize(level));
    }
  }

  /** The range goes from the first covered byte of the first item to the last of the last. */
  lemma Ends(huge: nat, level: nat, a: Alloc)
    requires Shape(huge, level, a)
    ensures a.items != [] && var first, last := a.items[0], a.items[|a.items| - 1];
            && StartAddr(a) == SlotAddr(level, first.index) + Lo(first)
            && EndAddr(a) == SlotAddr(level, last.index) + Hi(level, last)
  {
    hide PageSize, StartAddr, EndAddr, Lo, Hi, SlotAddr;
    RangeEnds(huge, level, a);
    assert a.items[|a.items| - 1].index == a.items[0].index + (|a.items| - 1);
  }

  /** An address is in the range exactly when the item of its slot covers its offset. */
  lemma CoversBySlot(huge: nat, level: nat, a: Alloc, i: nat, o: nat)
    requires Shape(huge, level, a) && o < PageSize(level)
    ensures Covers(a, i * PageSize(level) + o) <==> SlotCovered(level, a, i, o)
  {
    ShapeBounds(huge, level, a);
    RangeEnds(huge, level, a);
    InnerSlot(huge, level, a, i, o);
    hide Shape, StartAddr, EndAddr, PageSize, Lo, Hi;
    RangeBySlot(PageSize(level), a.items[0].index, |a.items|, Lo(a.items[0]), Hi(level, a.items[|a.items| - 1]), i, o);
  }

  lemma InnerSlot(huge: nat, level: nat, a: Alloc, i: nat, o: nat)
    requires Shape(huge, level, a) && o < PageSize(level)
    ensures var first, n := a.items[0].index, |a.items|;
            SlotCovered(level, a, i, o) <==>
              && first <= i < first + n
              && (i == first ==> Lo(a.items[0]) <= o)
              && (i == first + n - 1 ==> o < Hi(level, a.items[n - 1]))
  {
  }

  /** Neighbouring items adjoin. */
  lemma ItemsAdjoin(huge: nat, level: nat, a: Alloc, k: nat)
    requires Shape(huge, level, a) && 0 < k < |a.items|
    ensures a.items[k].index * PageSize(level) + Lo(a.items[k])
         == a.items[k - 1].index * PageSize(level) + Hi(level, a.items[k - 1])
  {
    assert a.items[k].index == a.items[k - 1].index + 1;
    MulSucc(a.items[k - 1].index, PageSize(level));
  }

  /** An item's offset is the distance of its first byte from the start. */
  lemma {:induction false} ItemOffset(huge: nat, level: nat, a: Alloc, k: nat)
    requires Shape(huge, level, a) && k < |a.items|
    ensures a.items[k].offset + StartAddr(a) == a.items[k].index * PageSize(level) + Lo(a.items[k])
  {
    hide PageSize;
    if k > 0 {
      ItemOffset(huge, level, a, k - 1);
      ItemsAdjoin(huge, level, a, k);
    }
  }

  /** What an item adds to the offsets. */
  lemma OffsetStep(huge: nat, level: nat, a: Alloc, k: nat)
    requires Shape(huge, level, a) && k < |a.items|
    ensures ItemShape(huge, level, a.items[k]) && a.items[0].offset == 0 && a.pageSize == PageSize(level)
    ensures a.items[k].offset + Hi(level, a.items[k]) - Lo(a.items[k])
         == if k + 1 < |a.items| then a.items[k + 1].offset else EndAddr(a) - StartAddr(a)
  {
    hide PageSize, StartAddr, EndAddr, Lo, Hi;
    if k + 1 == |a.items| {
      ItemOffset(huge, level, a, k);
      Ends(huge, level, a);
    }
  }

  /** The size that the allocation reports is the length of its range. */
  method Size(ghost huge: nat, ghost level: nat, a: Alloc) returns (size: nat)
    requires Shape(huge, level, a)
    ensures size == EndAddr(a) - StartAddr(a)
    decreases a
  {
    hide PageSize, Shape, StartAddr, EndAddr;
    NonEmpty(huge, level, a);
    OffsetStep(huge, level, a, 0);
    size := 0;
    for k := 0 to |a.items|
      invariant size == if k < |a.items| then a.items[k].offset else EndAddr(a) - StartAddr(a)
    {
      OffsetStep(huge, level, a, k);
      match a.items[k]
      case Page(_, _) =>
        size := size + a.pageSize;
      case SubTable(_, _, sub) =>
        var inner := Size(huge, level - 1, sub);
        size := size + inner;
    }
  }

  /** Offsets grow from item to item. */
  lemma OffsetsSorted(huge: nat, level: nat, a: Alloc)
    requires Shape(huge, level, a)
    ensures forall j, k :: 0 <= j < k < |a.items| ==> a.items[j].offset < a.items[k].offset
  {
    hide PageSize;
    ShapeBounds(huge, level, a);
    forall j, k | 0 <= j < k < |a.items|
      ensures a.items[j].offset < a.items[k].offset
    {
      ItemOffset(huge, level, a, j);
      ItemOffset(huge, level, a, k);
      MulStep(a.items[j].index, a.items[k].index, PageSize(level));
    }
  }

  lemma ItemFacts(huge: nat, level: nat, a: Alloc, k: nat)
    requires Shape(huge, level, a) && k < |a.items|
    ensures ItemShape(huge, level, a.items[k]) && a.items[k].index == a.items[0].index + k
    ensures Lo(a.items[k]) < Hi(level, a.items[k])
  {
    hide PageSize;
    ShapeBounds(huge, level, a);
  }

  /** The leaf that owns an address: its level, and the sum of the offsets along its path. */
  ghost function LeafOf(level: nat, a: Alloc, v: nat): (nat, nat)
    decreases level
  {
    var i, o := v / PageSize(level), v % PageSize(level);
    if level == 0 || a.items == [] || i < a.items[0].index || i - a.items[0].index >= |a.items| then (0, 0)
    else match a.items[i - a.items[0].index]
      case Page(_, offset) => (level, offset)
      case SubTable(_, offset, sub) => var (l, sum) := LeafOf(level - 1, sub, o); (l, offset + sum)
  }

  /** Offsets summed along the path to a page give its distance from the start of the allocation. */
  lemma {:induction false} PathOffset(huge: nat, level: nat, a: Alloc, v: nat)
    requires Shape(huge, level, a) && Covers(a, v)
    ensures var (l, sum) := LeafOf(level, a, v);
            && 1 <= l <= level && l <= huge
            && sum + StartAddr(a) <= v < sum + StartAddr(a) + PageSize(l)
            && (sum + StartAddr(a)) % PageSize(l) == 0
    decreases level
  {
    hide PageSize, StartAddr, EndAddr, Shape;
    NonEmpty(huge, level, a);
    var ps := PageSize(level);
    var i, o := v / ps, v % ps;
    DivBounds(v, ps);
    CoversBySlot(huge, level, a, i, o);
    ItemFacts(huge, level, a, i - a.items[0].index);
    var item := a.items[i - a.items[0].index];
    ItemOffset(huge, level, a, i - a.items[0].index);
    match item {
      case Page(_, _) =>
        SlotOffset(i, 0, ps);
      case SubTable(_, _, sub) =>
        PathOffset(huge, level - 1, sub, o);
        var (l, sum) := LeafOf(level - 1, sub, o);
        SubAligned(level, l, i, sum + StartAddr(sub));
    }
  }

  lemma SubAligned(level: nat, l: nat, i: nat, x: nat)
    requires 1 <= l < level && x % PageSize(l) == 0
    ensures (i * PageSize(level) + x) % PageSize(l) == 0
  {
    var m := PageRatio(level, l);
    MultipleSum(i, m, PageSize(l), x);
  }

  lemma {:induction false} PageRatio(level: nat, l: nat) returns (m: nat)
    requires 1 <= l <= level
    ensures PageSize(level) == m * PageSize(l)
  {
    if l == level {
      m := 1;
    } else {
      var m' := PageRatio(level - 1, l);
      m := NPAGES * m';
    }
  }
}
