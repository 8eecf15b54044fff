/** What giving back an item or a remainder changes. */
module Releasing {
  import opened Options
  import opened Layout
  import opened Entries
  import opened Availability
  import opened PageTables
  import opened Allocations
  import opened Slots
  import opened Staging

  lemma SameSlotViews(level: nat, t: Table, t': Table, i: nat, o: nat)
    requires SameView(level, t, t') && o < PageSize(level)
    ensures SlotView(level, t, i, o) == SlotView(level, t', i, o)
  {
    hide PageSize;
    SlotOffset(i, o, PageSize(level));
    assert ViewAt(level, t, i * PageSize(level) + o) == ViewAt(level, t', i * PageSize(level) + o);
  }

  /** Releasing in a sub-table what had been taken there restores what the table shows. */
  lemma SubReleased(huge: nat, level: nat, t: Table, t1: Table, t2: Table, idx: nat, a: Alloc, s: Table)
    requires level > 1 && Valid(level, t) && Valid(level, t2) && NoNewFlags(t, t2)
    requires SubTaken(huge, level, t, t1, idx, a, StartAddr(a), EndAddr(a)) && SameView(level, t1, t2)
    requires WellSized(t2) && t2.subs[idx].Some?
    requires Valid(level - 1, s) && NoNewFlags(t2.subs[idx].value, s) && Released(level - 1, t2.subs[idx].value, s, a)
    ensures var t' := SetSub(t2, idx, Some(s)); Valid(level, t') && NoNewFlags(t, t') && SameView(level, t, t')
  {
    hide SlotView, ViewAt, Shape, Backed, PageSize, StartAddr, EndAddr, Valid, SlotValid, Below, Get;
    var t' := SetSub(t2, idx, Some(s));
    SlotSubCode(level, t2, idx);
    SubOfView(level, t2, idx);
    SubReplaced(level, t2, idx, s, t');
    Sized(level, t);
    forall j, o | 0 <= j < NPAGES && 0 <= o < PageSize(level)
      ensures SlotView(level, t, j, o) == SlotView(level, t', j, o)
    {
      SameSlotViews(level, t1, t2, j, o);
      if j == idx {
        assert SlotView(level, t', j, o) == ViewAt(level - 1, s, o);
        assert Covers(a, o) <==> StartAddr(a) <= o < EndAddr(a);
      } else {
        assert SameSlot(t, t1, j);
        SameSlotView(level, t, t1, j);
      }
    }
    SlotsToView(level, t, t');
  }

  lemma SlotSubCode(level: nat, t: Table, i: nat)
    requires Valid(level, t) && i < NPAGES && t.subs[i].Some?
    ensures Get(t.bitmap, i) != EMPTY
  {
    assert SlotValid(level, t, i);
  }

  ghost predicate ItemReleased(level: nat, t: Table, t': Table, item: Item)
  {
    forall o: nat :: o < PageSize(level) ==>
      SlotView(level, t', item.index, o) == if Lo(item) <= o < Hi(level, item) then Free
                                            else SlotView(level, t, item.index, o)
  }

  lemma ReleasedFrame(level: nat, t: Table, t1: Table, t2: Table, t': Table, item: Item)
    requires item.index < NPAGES && WellSized(t) && WellSized(t1) && WellSized(t2) && WellSized(t')
    requires SameSlot(t, t1, item.index) && ItemReleased(level, t1, t2, item) && SameSlot(t2, t', item.index)
    ensures ItemReleased(level, t, t', item)
  {
    SameSlotView(level, t, t1, item.index);
    SameSlotView(level, t2, t', item.index);
    hide SlotView, PageSize, Get, Lo, Hi;
  }

  lemma ItemInRange(huge: nat, level: nat, a: Alloc, t: Table, k: nat)
    requires Shape(huge, level, a) && Backed(a, t) && k < |a.items|
    ensures a.items[k].index == a.items[0].index + k < NPAGES
    ensures ItemShape(huge, level, a.items[k]) && ItemBacked(a.items[k], t)
  {
  }

  lemma AllReleased(huge: nat, level: nat, t: Table, t': Table, a: Alloc)
    requires Shape(huge, level, a) && Backed(a, t) && WellSized(t')
    requires forall j :: 0 <= j < NPAGES && !(a.items[0].index <= j < a.items[0].index + |a.items|) ==>
      SameSlot(t, t', j)
    requires forall m :: 0 <= m < |a.items| ==> ItemReleased(level, t, t', a.items[m])
    ensures Released(level, t, t', a)
  {
    var first := a.items[0].index;
    hide SlotView, ViewAt, Shape, PageSize, Get, StartAddr, EndAddr, Lo, Hi;
    forall i, o | 0 <= i < NPAGES && 0 <= o < PageSize(level)
      ensures SlotView(level, t', i, o) == if SlotCovered(level, a, i, o) then Free else SlotView(level, t, i, o)
    {
      if first <= i < first + |a.items| {
        ItemInRange(huge, level, a, t, i - first);
        assert ItemReleased(level, t, t', a.items[i - first]);
      } else {
        assert SameSlot(t, t', i);
        SameSlotView(level, t, t', i);
      }
    }
    ReleasedBySlots(huge, level, t, t', a);
  }

  lemma EmptySubView(level: nat, s: Table)
    requires Valid(level, s) && NumPagesUsed(s) == 0
    ensures forall o: nat :: ViewAt(level, s, o) == Free
  {
    NoneUsed(s.entries);
  }

  lemma SubDeleted(level: nat, t: Table, i: nat)
    requires Valid(level, t) && i < NPAGES
    ensures var t' := RefreshAvailability(SetSub(SetEntry(t, i, Unused), i, None), i);
            && Valid(level, t') && NoNewFlags(t, t') && SameExcept(t, t', i)
            && forall o: nat :: SlotView(level, t', i, o) == Free
  {
    var t0 := SetSub(SetEntry(t, i, Unused), i, None);
    var t' := RefreshAvailability(t0, i);
    Refreshed(t0, i);
    assert SameExcept(t, t', i) by {
      forall j | 0 <= j < NPAGES && j != i
        ensures SameSlot(t, t', j)
      {
        assert SameSlot(t0, t', j);
      }
    }
    assert SlotValid(level, t', i);
    OneSlot(level, t, t', i);
  }
}
