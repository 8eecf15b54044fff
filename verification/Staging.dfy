/** What the steps of an allocation have taken so far, and that together they take exactly one range. */
module Staging {
  import opened Options
  import opened Layout
  import opened Availability
  import opened PageTables
  import opened Allocations
  import opened Slots
  import opened Strategies
  import opened Assembly
  import opened AddressParts

  /** The slots [start, end), and no others, changed, and `items` own all of them. */
  ghost predicate MiddleTaken(huge: nat, level: nat, t: Table, t': Table, items: seq<Item>, start: nat, end: nat)
  {
    && WellSized(t) && WellSized(t') && start <= end <= NPAGES
    && (forall j :: 0 <= j < NPAGES && !(start <= j < end) ==> SameSlot(t, t', j))
    && (forall i, o: nat :: start <= i < end && o < PageSize(level) ==> IsReserved(SlotView(level, t', i, o)))
    && |items| == end - start && WholeItems(huge, level, t', items, start)
    && MiddleOffset(level, items) == SlotAddr(level, end - start)
  }

  /** Where the next item would start. */
  ghost function MiddleOffset(level: nat, items: seq<Item>): nat
  {
    if items == [] then 0 else items[|items| - 1].offset + PageSize(level)
  }

  lemma MiddleExtended(huge: nat, level: nat, t: Table, t1: Table, t': Table, items: seq<Item>, item: Item, start: nat,
                       idx: nat)
    requires idx < NPAGES && MiddleTaken(huge, level, t, t1, items, start, idx) && SameExcept(t1, t', idx)
    requires forall o: nat :: o < PageSize(level) ==> IsReserved(SlotView(level, t', idx, o))
    requires WholeItem(huge, level, t', item) && item.index == idx && item.offset == SlotAddr(level, idx - start)
    ensures MiddleTaken(huge, level, t, t', items + [item], start, idx + 1)
  {
    hide SlotView, PageSize, Get, SlotAddr, ItemShape, Lo, Hi;
    SlotAddrSucc(level, idx - start);
    forall j | 0 <= j < NPAGES && !(start <= j < idx + 1)
      ensures SameSlot(t, t', j)
    {
      assert SameSlot(t, t1, j) && SameSlot(t1, t', j);
    }
    forall i, o: nat | start <= i < idx + 1 && o < PageSize(level)
      ensures IsReserved(SlotView(level, t', i, o))
    {
      if i < idx {
        assert SameSlot(t1, t', i);
        SameSlotView(level, t1, t', i);
      }
    }
    forall k | 0 <= k < |items|
      ensures WholeItem(huge, level, t', items[k])
    {
      assert WholeItem(huge, level, t1, items[k]);
      ItemBackedFrame(items[k], t1, t');
    }
    hide WholeItem, SameSlot;
  }

  /** In slot `i`, the offsets [lo, hi) were free and are now reserved; the others show what they did. */
  ghost predicate SlotTaken(level: nat, t: Table, t': Table, i: nat, lo: nat, hi: nat)
  {
    forall o: nat :: o < PageSize(level) ==>
      if lo <= o < hi then SlotView(level, t, i, o) == Free && IsReserved(SlotView(level, t', i, o))
      else SlotView(level, t', i, o) == SlotView(level, t, i, o)
  }

  /** Only slot `idx` changed: its sub-table now holds `a`, which covers [lo, hi). */
  ghost predicate SubTaken(huge: nat, level: nat, t: Table, t': Table, idx: nat, a: Alloc, lo: nat, hi: nat)
  {
    && idx < NPAGES && level > 1 && SameExcept(t, t', idx)
    && t'.subs[idx].Some? && Backed(a, t'.subs[idx].value)
    && Shape(huge, level - 1, a) && StartAddr(a) == lo && EndAddr(a) == hi
    && SlotTaken(level, t, t', idx, lo, hi)
  }

  lemma EnterableBelow(level: nat, t: Table, i: nat)
    requires Valid(level, t) && i < NPAGES && Get(t.bitmap, i) < FULL
    ensures Enterable(t, i) && (Get(t.bitmap, i) == EMPTY <==> t.subs[i].None?)
  {
    assert SlotValid(level, t, i);
  }

  lemma SubTakenHere(huge: nat, level: nat, t: Table, t': Table, idx: nat, s: Table, s': Table, a: Alloc)
    requires level > 1 && idx < NPAGES && SameExcept(t, t', idx) && t'.subs[idx] == Some(s')
    requires forall o: nat :: SlotView(level, t, idx, o) == ViewAt(level - 1, s, o)
    requires forall o: nat :: SlotView(level, t', idx, o) == ViewAt(level - 1, s', o)
    requires Taken(level - 1, s, s', a) && Backed(a, s') && Shape(huge, level - 1, a)
    ensures SubTaken(huge, level, t, t', idx, a, StartAddr(a), EndAddr(a))
  {
  }

  ghost predicate OwnSlot(first: Option<Item>, whole: seq<Item>, last: Option<Item>, start: nat, j: nat)
  {
    || start <= j < start + |whole|
    || (first.Some? && j == first.value.index)
    || (last.Some? && j == last.value.index)
  }

  /** Between `t` and `t'` exactly the pieces were taken. */
  ghost predicate Staged(huge: nat, level: nat, t: Table, t': Table, first: Option<Item>, whole: seq<Item>,
                         last: Option<Item>, start: nat)
  {
    && WellSized(t) && Fitting(huge, level, t', first, whole, last, start)
    && (first.Some? ==> SlotTaken(level, t, t', first.value.index, Lo(first.value), Hi(level, first.value)))
    && (forall i :: start <= i < start + |whole| ==> SlotTaken(level, t, t', i, 0, PageSize(level)))
    && (last.Some? ==> SlotTaken(level, t, t', last.value.index, 0, Hi(level, last.value)))
    && (forall j :: 0 <= j < NPAGES && !OwnSlot(first, whole, last, start, j) ==> SameSlot(t, t', j))
  }

  lemma StagedTaken(huge: nat, level: nat, t: Table, t': Table, first: Option<Item>, whole: seq<Item>,
                    last: Option<Item>, start: nat)
    requires level >= 1 && Staged(huge, level, t, t', first, whole, last, start)
    ensures var a := Alloc(Pieces(first, whole, last), PageSize(level));
            Shape(huge, level, a) && Backed(a, t') && Taken(level, t, t', a)
  {
    FittingShape(huge, level, t', first, whole, last, start);
    var a := Alloc(Pieces(first, whole, last), PageSize(level));
    forall i, o | 0 <= i < NPAGES && 0 <= o < PageSize(level)
      ensures if SlotCovered(level, a, i, o)
              then SlotView(level, t, i, o) == Free && IsReserved(SlotView(level, t', i, o))
              else SlotView(level, t', i, o) == SlotView(level, t, i, o)
    {
      StagedSlot(huge, level, t, t', first, whole, last, start, i, o);
    }
    hide Shape, SlotView, PageSize, Fitting, Backed;
    TakenBySlots(huge, level, t, t', a);
  }

  lemma StagedSlot(huge: nat, level: nat, t: Table, t': Table, first: Option<Item>, whole: seq<Item>,
                   last: Option<Item>, start: nat, i: nat, o: nat)
    requires level >= 1 && Staged(huge, level, t, t', first, whole, last, start) && i < NPAGES && o < PageSize(level)
    ensures var a := Alloc(Pieces(first, whole, last), PageSize(level));
            if SlotCovered(level, a, i, o)
            then SlotView(level, t, i, o) == Free && IsReserved(SlotView(level, t', i, o))
            else SlotView(level, t', i, o) == SlotView(level, t, i, o)
  {
    hide SlotView, PageSize, Shape, Backed, StartAddr, EndAddr, ItemShape, ItemBacked, Get;
    var items := Pieces(first, whole, last);
    var skip := if first.Some? then 1 else 0;
    assert items[0].index + skip == start;
    var k := i - items[0].index;
    if skip <= k < skip + |whole| {
      assert items[k] == whole[k - skip];
      assert WholeItem(huge, level, t', whole[k - skip]);
      assert SlotTaken(level, t, t', i, 0, PageSize(level));
    } else if 0 <= k < |items| {
    } else {
      SameSlotView(level, t, t', i);
    }
  }

  /** A slot that changed only in the middle step. */
  lemma SlotTakenBetween(level: nat, t: Table, t1: Table, t2: Table, t': Table, i: nat, lo: nat, hi: nat)
    requires i < NPAGES && WellSized(t) && WellSized(t1) && WellSized(t2) && WellSized(t')
    requires SameSlot(t, t1, i) && SlotTaken(level, t1, t2, i, lo, hi) && SameSlot(t2, t', i)
    ensures SlotTaken(level, t, t', i, lo, hi)
  {
    SameSlotView(level, t, t1, i);
    SameSlotView(level, t2, t', i);
    hide SlotView, PageSize, Get;
  }

  ghost function FirstItem(sa: Option<Alloc>, start: nat): Option<Item>
  {
    if sa.Some? && start > 0 then Some(SubTable(start - 1, 0, sa.value)) else None
  }

  ghost function LastItem(ea: Option<Alloc>, end: nat, offset: nat): Option<Item>
  {
    if ea.Some? then Some(SubTable(end, offset, ea.value)) else None
  }

  /** The tables between the steps of an allocation: `ea` was taken in slot `end`, then `sa` in slot
      `start - 1`, then the whole slots in between. */
  ghost predicate Steps(huge: nat, level: nat, t: Table, t1: Table, t2: Table, t': Table,
                        ea: Option<Alloc>, sa: Option<Alloc>, whole: seq<Item>, start: nat, end: nat)
  {
    && Valid(level, t) && WellSized(t1) && MiddleTaken(huge, level, t2, t', whole, start, end)
    && (forall i :: start <= i < end ==> Get(t.bitmap, i) == EMPTY)
    && (ea.None? ==> t1 == t)
    && (ea.Some? ==> SubTaken(huge, level, t, t1, end, ea.value, 0, EndAddr(ea.value)))
    && (sa.None? ==> t2 == t1)
    && (sa.Some? ==>
          start > 0 && SubTaken(huge, level, t1, t2, start - 1, sa.value, StartAddr(sa.value), EndAddr(sa.value)))
    && (sa.Some? && (whole != [] || ea.Some?) ==> EndAddr(sa.value) == PageSize(level))
    && (whole != [] || ea.Some? || sa.Some?)
  }

  lemma StepsTaken(huge: nat, level: nat, t: Table, t1: Table, t2: Table, t': Table,
                   ea: Option<Alloc>, sa: Option<Alloc>, whole: seq<Item>, start: nat, end: nat)
    requires Steps(huge, level, t, t1, t2, t', ea, sa, whole, start, end)
    ensures start <= end && forall i :: start <= i < end ==> SlotTaken(level, t, t', i, 0, PageSize(level))
    ensures ea.Some? ==> end < NPAGES && SlotTaken(level, t, t', end, 0, EndAddr(ea.value)) && SameSlot(t1, t', end)
    ensures sa.Some? ==>
      && 0 < start && SlotTaken(level, t, t', start - 1, StartAddr(sa.value), EndAddr(sa.value))
      && SameSlot(t2, t', start - 1)
  {
    hide PageSize, Shape, Backed, StartAddr, EndAddr, ViewAt, WholeItems;
    forall i | start <= i < end
      ensures SlotTaken(level, t, t', i, 0, PageSize(level))
    {
      forall o: nat | o < PageSize(level)
        ensures SlotView(level, t, i, o) == Free && IsReserved(SlotView(level, t', i, o))
      {
        EmptySlotView(level, t, i, o);
      }
    }
    hide SlotView, Valid, Get;
    if ea.Some? {
      assert SameSlot(t1, t2, end) && SameSlot(t2, t', end);
      SlotTakenBetween(level, t, t, t1, t', end, 0, EndAddr(ea.value));
    }
    if sa.Some? {
      assert SameSlot(t, t1, start - 1) && SameSlot(t2, t', start - 1);
      SlotTakenBetween(level, t, t1, t2, t', start - 1, StartAddr(sa.value), EndAddr(sa.value));
    }
  }

  ghost function LeadOf(sa: Option<Alloc>): nat
  {
    if sa.Some? && StartAddr(sa.value) <= EndAddr(sa.value) then EndAddr(sa.value) - StartAddr(sa.value) else 0
  }

  lemma StepsStaged(huge: nat, level: nat, t: Table, t1: Table, t2: Table, t': Table,
                    ea: Option<Alloc>, sa: Option<Alloc>, whole: seq<Item>, start: nat, end: nat, offset: nat)
    requires Steps(huge, level, t, t1, t2, t', ea, sa, whole, start, end)
    requires offset == MiddleOffset(level, whole)
    ensures Staged(huge, level, t, t', FirstItem(sa, start), Shifted(whole, LeadOf(sa)),
                   LastItem(ea, end, offset + LeadOf(sa)), start)
  {
    hide PageSize, Shape, Backed, StartAddr, EndAddr, SlotView, Valid, Get, SlotTaken, Fitting, WholeItems;
    StepsTaken(huge, level, t, t1, t2, t', ea, sa, whole, start, end);
    StepsFitting(huge, level, t, t1, t2, t', ea, sa, whole, start, end, offset);
    var first, shifted := FirstItem(sa, start), Shifted(whole, LeadOf(sa));
    var last := LastItem(ea, end, offset + LeadOf(sa));
    forall j | 0 <= j < NPAGES && !OwnSlot(first, shifted, last, start, j)
      ensures SameSlot(t, t', j)
    {
      assert SameSlot(t, t1, j) && SameSlot(t1, t2, j) && SameSlot(t2, t', j);
    }
  }

  lemma StepsFitting(huge: nat, level: nat, t: Table, t1: Table, t2: Table, t': Table,
                     ea: Option<Alloc>, sa: Option<Alloc>, whole: seq<Item>, start: nat, end: nat, offset: nat)
    requires Steps(huge, level, t, t1, t2, t', ea, sa, whole, start, end)
    requires offset == MiddleOffset(level, whole)
    ensures Fitting(huge, level, t', FirstItem(sa, start), Shifted(whole, LeadOf(sa)),
                    LastItem(ea, end, offset + LeadOf(sa)), start)
  {
    hide PageSize, Shape, Backed, StartAddr, EndAddr, SlotView, Valid, Get, SlotTaken, WholeItem, ItemShape;
    hide ItemBacked, WholeItems;
    StepsTaken(huge, level, t, t1, t2, t', ea, sa, whole, start, end);
    ShiftedWhole(huge, level, t', whole, start, LeadOf(sa));
    if sa.Some? {
      ShapeBounds(huge, level - 1, sa.value);
      SubItem(huge, level, t2, t', SubTable(start - 1, 0, sa.value));
    }
    if ea.Some? {
      SubItem(huge, level, t1, t', SubTable(end, offset + LeadOf(sa), ea.value));
    }
  }

  lemma SubItem(huge: nat, level: nat, t: Table, t': Table, item: Item)
    requires WellSized(t) && WellSized(t') && item.SubTable? && item.index < NPAGES && level > 1
    requires t.subs[item.index].Some? && Backed(item.alloc, t.subs[item.index].value)
    requires Shape(huge, level - 1, item.alloc) && SameSlot(t, t', item.index)
    ensures ItemShape(huge, level, item) && ItemBacked(item, t')
  {
  }

  /** The two remainders, each with how far it moves the items before it. */
  function Rems(ea: Option<Alloc>, end: nat, offset: nat, sa: Option<Alloc>, start: nat,
                lead: nat): seq<Option<(Item, nat)>>
  {
    [if ea.Some? then Some((SubTable(end, offset, ea.value), 0)) else None,
     if sa.Some? && start > 0 then Some((SubTable(start - 1, 0, sa.value), lead)) else None]
  }

  /** Adding the trailing remainder and then making room for a leading one. */
  lemma MovedPieces(whole: seq<Item>, ea: Option<Alloc>, end: nat, offset: nat, lead: nat)
    ensures var rem := if ea.Some? then Some((SubTable(end, offset, ea.value), 0)) else None;
            && Shifted(Add(whole, rem), lead) == Pieces(None, Shifted(whole, lead), LastItem(ea, end, offset + lead))
            && Shifted(Add(whole, rem), 0) == Add(whole, rem)
  {
  }

  /** Gathering the remainders yields the pieces, in another order. */
  lemma GatheredPieces(whole: seq<Item>, ea: Option<Alloc>, end: nat, offset: nat, sa: Option<Alloc>, start: nat,
                       lead: nat)
    requires sa.Some? ==> start > 0
    requires sa.None? ==> lead == 0
    ensures multiset(Gathered(whole, Rems(ea, end, offset, sa, start, lead)))
         == multiset(Pieces(FirstItem(sa, start), Shifted(whole, lead), LastItem(ea, end, offset + lead)))
  {
    var rems := Rems(ea, end, offset, sa, start, lead);
    GatheredTwo(whole, rems[0], rems[1]);
    assert rems == [rems[0], rems[1]];
    MovedPieces(whole, ea, end, offset, lead);
    FirstPiece(FirstItem(sa, start), Shifted(whole, lead), LastItem(ea, end, offset + lead));
    hide Shifted, Gathered, Pieces, LastItem;
  }

  /** The sorted items are the pieces in order, and the allocation took exactly its range. */
  lemma BuiltFromSteps(huge: nat, level: nat, t: Table, t1: Table, t2: Table, t': Table,
                       ea: Option<Alloc>, sa: Option<Alloc>, whole: seq<Item>, start: nat, end: nat, offset: nat,
                       a: Alloc)
    requires level >= 1 && Steps(huge, level, t, t1, t2, t', ea, sa, whole, start, end)
    requires offset == MiddleOffset(level, whole)
    requires a.pageSize == PageSize(level) && SortedByOffset(a.items)
    requires multiset(a.items) == multiset(Gathered(whole, Rems(ea, end, offset, sa, start, LeadOf(sa))))
    ensures Shape(huge, level, a) && Backed(a, t') && Taken(level, t, t', a)
    ensures StartAddr(a) == if sa.Some? then SlotAddr(level, start - 1) + StartAddr(sa.value)
                            else SlotAddr(level, start)
    ensures EndAddr(a) == if ea.Some? then SlotAddr(level, end) + EndAddr(ea.value)
                          else if whole != [] then SlotAddr(level, end)
                          else SlotAddr(level, start - 1) + EndAddr(sa.value)
    ensures ea.None? && sa.None? && level <= huge ==> OnlyPages(a)
  {
    hide Steps, Staged, Shape, Backed, StartAddr, EndAddr, PageSize, SlotAddr, Gathered, Taken;
    hide SortedByOffset, WholeItems;
    hide Pieces, Shifted, Rems, FirstItem, LastItem, MiddleOffset, OnlyPages;
    var lead := LeadOf(sa);
    StepsEnds(huge, level, t, t1, t2, t', ea, sa, whole, start, end);
    StepsStaged(huge, level, t, t1, t2, t', ea, sa, whole, start, end, offset);
    var first, shifted, last := FirstItem(sa, start), Shifted(whole, lead), LastItem(ea, end, offset + lead);
    StagedTaken(huge, level, t, t', first, shifted, last, start);
    var b := Alloc(Pieces(first, shifted, last), PageSize(level));
    OffsetsSorted(huge, level, b);
    GatheredPieces(whole, ea, end, offset, sa, start, lead);
    SortUnique(a.items, b.items);
    assert a == b;
    BuiltRange(huge, level, t', ea, sa, whole, start, end, offset);
    if ea.None? && sa.None? && level <= huge {
      PlainPages(huge, level, t', whole, start, end, offset);
    }
  }

  ghost predicate OnlyPages(a: Alloc)
  {
    forall k :: 0 <= k < |a.items| ==> a.items[k].Page?
  }

  /** Without remainders, a level that has pages allocates nothing else. */
  lemma PlainPages(huge: nat, level: nat, t: Table, whole: seq<Item>, start: nat, end: nat, offset: nat)
    requires level <= huge && WellSized(t) && WholeItems(huge, level, t, whole, start)
    ensures OnlyPages(Alloc(Pieces(FirstItem(None, start), Shifted(whole, 0), LastItem(None, end, offset)),
                            PageSize(level)))
  {
    hide PageSize;
    assert forall k :: 0 <= k < |whole| ==> WholeItem(huge, level, t, whole[k]);
  }

  lemma StepsEnds(huge: nat, level: nat, t: Table, t1: Table, t2: Table, t': Table,
                  ea: Option<Alloc>, sa: Option<Alloc>, whole: seq<Item>, start: nat, end: nat)
    requires Steps(huge, level, t, t1, t2, t', ea, sa, whole, start, end)
    ensures sa.Some? ==> start > 0
    ensures ea.Some? ==> StartAddr(ea.value) == 0
    ensures whole != [] || ea.Some? || sa.Some?
    ensures WellSized(t') && WholeItems(huge, level, t', whole, start) && end == start + |whole|
  {
  }

  lemma BuiltRange(huge: nat, level: nat, t: Table, ea: Option<Alloc>, sa: Option<Alloc>, whole: seq<Item>, start: nat,
                   end: nat, offset: nat)
    requires level >= 1 && WellSized(t) && WholeItems(huge, level, t, whole, start) && end == start + |whole|
    requires (sa.Some? ==> start > 0) && (ea.Some? ==> StartAddr(ea.value) == 0)
    requires whole != [] || ea.Some? || sa.Some?
    requires var lead := LeadOf(sa);
             Shape(huge, level, Alloc(Pieces(FirstItem(sa, start), Shifted(whole, lead),
                                             LastItem(ea, end, offset + lead)), PageSize(level)))
    ensures var lead := LeadOf(sa);
            var a := Alloc(Pieces(FirstItem(sa, start), Shifted(whole, lead), LastItem(ea, end, offset + lead)),
                           PageSize(level));
            && StartAddr(a) == (if sa.Some? then SlotAddr(level, start - 1) + StartAddr(sa.value)
                                else SlotAddr(level, start))
            && EndAddr(a) == (if ea.Some? then SlotAddr(level, end) + EndAddr(ea.value)
                              else if whole != [] then SlotAddr(level, end)
                              else SlotAddr(level, start - 1) + EndAddr(sa.value))
  {
    hide Shape, Backed, StartAddr, EndAddr, PageSize, SlotAddr, Shifted, ItemShape, ItemBacked, WholeItems, Pieces;
    var lead := LeadOf(sa);
    var shifted := Shifted(whole, lead);
    var items := Pieces(FirstItem(sa, start), shifted, LastItem(ea, end, offset + lead));
    ShiftedWhole(huge, level, t, whole, start, lead);
    PiecesEnds(FirstItem(sa, start), shifted, LastItem(ea, end, offset + lead), start, end);
    RangeEnds(huge, level, Alloc(items, PageSize(level)));
    if whole != [] {
      assert WholeItem(huge, level, t, shifted[0]) && WholeItem(huge, level, t, shifted[|whole| - 1]);
      SlotAddrSucc(level, end - 1);
    }
  }

  lemma MiddleSize(huge: nat, level: nat, t: Table, t': Table, items: seq<Item>, start: nat, end: nat)
    requires MiddleTaken(huge, level, t, t', items, start, end)
    ensures WellSized(t') && |items| == end - start && MiddleOffset(level, items) == SlotAddr(level, end - start)
  {
  }

  lemma StillEmpty(huge: nat, level: nat, t: Table, t1: Table, t2: Table, start: nat, end: nat, ea: Option<Alloc>,
                   sa: Option<Alloc>)
    requires Valid(level, t) && Valid(level, t2) && end <= NPAGES
    requires (ea.None? ==> t1 == t) && (sa.None? ==> t2 == t1)
    requires ea.Some? ==> SubTaken(huge, level, t, t1, end, ea.value, 0, EndAddr(ea.value))
    requires sa.Some? ==>
      start > 0 && SubTaken(huge, level, t1, t2, start - 1, sa.value, StartAddr(sa.value), EndAddr(sa.value))
    ensures WellSized(t) && WellSized(t1) && WellSized(t2)
    ensures forall i :: start <= i < end ==> Get(t2.bitmap, i) == Get(t.bitmap, i)
  {
    hide SlotView, Shape, Backed, Get;
    forall i | start <= i < end
      ensures Get(t2.bitmap, i) == Get(t.bitmap, i)
    {
      assert SameSlot(t, t1, i) && SameSlot(t1, t2, i);
    }
  }

  /** What a successful allocation of `size` bytes guarantees. */
  ghost predicate Allocated(huge: nat, level: nat, t: Table, t': Table, a: Alloc, size: nat)
  {
    && Shape(huge, level, a) && Backed(a, t') && Taken(level, t, t', a)
    && EndAddr(a) == StartAddr(a) + size
  }

  /** An allocation inside one slot, seen from the table that holds the slot. */
  lemma InsideTaken(huge: nat, level: nat, t: Table, t': Table, idx: nat, sub: Alloc)
    requires level > 1 && SubTaken(huge, level, t, t', idx, sub, StartAddr(sub), EndAddr(sub))
    ensures var a := Alloc([SubTable(idx, 0, sub)], PageSize(level));
            && StartAddr(sub) < EndAddr(sub)
            && Allocated(huge, level, t, t', a, EndAddr(sub) - StartAddr(sub))
            && StartAddr(a) == SlotAddr(level, idx) + StartAddr(sub) && EndAddr(a) <= SlotAddr(level, idx + 1)
            && StartAddr(sub) < PageSize(level)
  {
    hide SlotView, ViewAt, Shape, Backed, PageSize, Get, Taken;
    var item := SubTable(idx, 0, sub);
    var a := Alloc([item], PageSize(level));
    ShapeBounds(huge, level - 1, sub);
    SpanBelow(level);
    SlotAddrSucc(level, idx);
    SubItem(huge, level, t', t', item);
    assert Pieces(Some(item), [], None) == [item];
    StagedTaken(huge, level, t, t', Some(item), [], None, idx + 1);
  }

  /** `n` slots from `from` on are all empty. */
  ghost predicate Clear(t: Table, from: nat, n: nat)
  {
    forall i :: from <= i < from + n ==> i < NPAGES && Get(t.bitmap, i) == EMPTY
  }

  /** Every slot that the range touches is empty. */
  ghost predicate ClearRange(level: nat, t: Table, addr: nat, size: nat)
  {
    forall i :: 0 <= i < NPAGES && Touches(level, i, addr, size) ==> Get(t.bitmap, i) == EMPTY
  }

  ghost predicate Touches(level: nat, i: nat, addr: nat, size: nat)
  {
    SlotAddr(level, i) < addr + size && addr < SlotAddr(level, i + 1)
  }

  lemma NewTableClear(level: nat)
    requires level >= 1
    ensures forall from: nat, n: nat :: from + n <= NPAGES ==> Clear(NewTable(), from, n)
  {
  }

  /** A sub-allocator put back as it was. */
  lemma SameSub(t: Table, i: nat)
    requires i < |t.subs|
    ensures forall s :: t.subs[i] == Some(s) ==> SetSub(t, i, Some(s)) == t
  {
  }

  /** How many slots the parts take up. */
  ghost function PartSlots(start: nat, end: nat, at: nat, remainder: nat): nat
    requires start <= end
  {
    end - start + (if at != 0 then 1 else 0) + if remainder != 0 then 1 else 0
  }

  /** A clear range has clear parts. */
  lemma ClearParts(level: nat, t: Table, addr: nat, size: nat)
    requires level >= 1 && size > 0 && size % MIN_PAGE_SIZE == 0 && addr % MIN_PAGE_SIZE == 0
    requires addr + size <= Span(level) && ClearRange(level, t, addr, size)
    ensures var at, start, end := StartRemAt(level, addr), StartIdx(level, addr), EndIdx(level, addr, size);
            var rem := Remainder(level, MainSize(level, addr, size));
            (at != 0 ==> start > 0) && Clear(t, if at != 0 then start - 1 else start, PartSlots(start, end, at, rem))
  {
    hide PageSize, SlotAddr, StartRemAt, StartIdx, StartRemSize, MainSize, Pages, Remainder, Get;
    AddrParts(level, addr, size);
    AddrEnd(level, addr, size);
    MainAreaFits(level, addr, size);
    var at, start, end := StartRemAt(level, addr), StartIdx(level, addr), EndIdx(level, addr, size);
    var rem := Remainder(level, MainSize(level, addr, size));
    forall i | (if at != 0 then start - 1 else start) <= i < (if rem != 0 then end + 1 else end)
      ensures i < NPAGES && Get(t.bitmap, i) == EMPTY
    {
      PartTouched(level, addr, size, i);
    }
  }

  lemma PartTouched(level: nat, addr: nat, size: nat, i: nat)
    requires level >= 1 && size > 0 && size % MIN_PAGE_SIZE == 0 && addr % MIN_PAGE_SIZE == 0
    requires StartIdx(level, addr) <= i || (StartRemAt(level, addr) != 0 && i + 1 == StartIdx(level, addr))
    requires || i < EndIdx(level, addr, size)
             || (Remainder(level, MainSize(level, addr, size)) != 0 && i == EndIdx(level, addr, size))
    ensures Touches(level, i, addr, size)
  {
    hide PageSize, SlotAddr, StartRemAt, StartIdx, StartRemSize, MainSize, Pages, Remainder;
    AddrParts(level, addr, size);
    AddrEnd(level, addr, size);
    var start, end := StartIdx(level, addr), EndIdx(level, addr, size);
    SlotAddrSucc(level, i);
    if start <= i {
      SlotAddrMonotone(level, start, i);
    }
    if i < end {
      SlotAddrMonotone(level, i + 1, end);
    }
    if StartRemAt(level, addr) != 0 {
      SlotAddrSucc(level, start - 1);
    }
  }
}
