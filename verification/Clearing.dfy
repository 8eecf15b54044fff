/** Marking an allocation absent with data that reads as an unused entry: its pages disappear, and the
    bitmaps go on saying that they are there. */
module Clearing {
  import opened Layout
  import opened Entries
  import opened Availability
  import opened PageTables
  import opened Allocations
  import opened Slots
  import opened Releasing

  /** What became of the slot of an item. */
  ghost predicate ItemCleared(level: nat, t: Table, t': Table, item: Item)
    requires WellSized(t) && WellSized(t') && item.index < NPAGES
  {
    match item
    case Page(i, _) => t'.entries[i] == Unused && t'.subs[i] == t.subs[i]
    case SubTable(i, _, alloc) =>
      && t'.entries[i] == t.entries[i] && t.subs[i].Some? && t'.subs[i].Some? && level > 1
      && Released(level - 1, t.subs[i].value, t'.subs[i].value, alloc) && !Valid(level - 1, t'.subs[i].value)
  }

  /** The pages of this level among the first `k` items are cleared or, once `entered`, all of them and the
      first `k` sub-tables too. */
  ghost predicate Cleared(level: nat, t: Table, t': Table, a: Alloc, k: nat, entered: bool)
    requires a.items != []
  {
    && WellSized(t) && WellSized(t') && t'.bitmap == t.bitmap && k <= |a.items|
    && (forall m :: 0 <= m < |a.items| ==> a.items[m].index < NPAGES)
    && (forall j :: 0 <= j < NPAGES && !(a.items[0].index <= j < a.items[0].index + |a.items|) ==> SameSlot(t, t', j))
    && forall m :: 0 <= m < |a.items| ==>
         if (if entered then m < k || a.items[m].Page? else m < k && a.items[m].Page?)
         then ItemCleared(level, t, t', a.items[m])
         else SameSlot(t, t', a.items[m].index)
  }

  lemma ClearStart(huge: nat, level: nat, t: Table, a: Alloc)
    requires Valid(level, t) && Shape(huge, level, a) && a.items != []
    ensures Cleared(level, t, t, a, 0, false)
  {
  }

  lemma ClearTurn(level: nat, t: Table, t': Table, a: Alloc)
    requires a.items != [] && Cleared(level, t, t', a, |a.items|, false)
    ensures Cleared(level, t, t', a, 0, true)
  {
  }

  /** One more item. */
  lemma ClearStep(huge: nat, level: nat, t: Table, t1: Table, t': Table, a: Alloc, k: nat, entered: bool)
    requires Shape(huge, level, a) && a.items != [] && k < |a.items| && Cleared(level, t, t1, a, k, entered)
    requires a.items[k].Page? != entered ==>
      && SameExcept(t1, t', a.items[k].index) && t'.bitmap == t1.bitmap
      && ItemCleared(level, t, t', a.items[k])
    requires a.items[k].Page? == entered ==> t' == t1
    ensures Cleared(level, t, t', a, k + 1, entered)
  {
    hide Get, Valid, ViewAt, Released;
    if t' != t1 {
      forall m | 0 <= m < |a.items| && m != k
        ensures SameSlot(t1, t', a.items[m].index)
      {
        assert a.items[m].index == a.items[0].index + m && a.items[k].index == a.items[0].index + k;
      }
      forall j | 0 <= j < NPAGES && !(a.items[0].index <= j < a.items[0].index + |a.items|)
        ensures SameSlot(t, t', j)
      {
        assert a.items[k].index == a.items[0].index + k;
        assert SameSlot(t, t1, j) && SameSlot(t1, t', j);
      }
    }
  }

  /** A cleared slot shows its item as free, and is not valid any more. */
  lemma ClearedItem(huge: nat, level: nat, t: Table, t': Table, item: Item)
    requires Valid(level, t) && WellSized(t) && WellSized(t') && ItemShape(huge, level, item) && ItemBacked(item, t)
    requires item.index < NPAGES && ItemCleared(level, t, t', item)
    requires Get(t'.bitmap, item.index) == Get(t.bitmap, item.index)
    ensures ItemReleased(level, t, t', item) && !SlotValid(level, t', item.index)
  {
    var i := item.index;
    assert SlotValid(level, t, i);
    hide Get, PageSize, Valid, Below;
    match item {
      case Page(_, _) =>
      case SubTable(_, _, sub) =>
        forall o: nat | o < PageSize(level)
          ensures SlotView(level, t', i, o) == if Lo(item) <= o < Hi(level, item) then Free
                                               else SlotView(level, t, i, o)
        {
          assert ViewAt(level - 1, t'.subs[i].value, o)
              == if Covers(sub, o) then Free else ViewAt(level - 1, t.subs[i].value, o);
        }
    }
  }

  lemma ClearDone(huge: nat, level: nat, t: Table, t': Table, a: Alloc)
    requires Valid(level, t) && Shape(huge, level, a) && Backed(a, t) && a.items != []
    requires Cleared(level, t, t', a, |a.items|, true)
    ensures WellSized(t') && Released(level, t, t', a) && !Valid(level, t')
  {
    hide Get, PageSize, SlotView, ViewAt, ItemCleared, ItemShape, StartAddr, EndAddr;
    forall m | 0 <= m < |a.items|
      ensures ItemReleased(level, t, t', a.items[m]) && !SlotValid(level, t', a.items[m].index)
    {
      ItemInRange(huge, level, a, t, m);
      ClearedItem(huge, level, t, t', a.items[m]);
    }
    assert !SlotValid(level, t', a.items[0].index);
    hide Valid, SlotValid, Shape, Backed;
    AllReleased(huge, level, t, t', a);
  }

  /** What the next step needs. */
  lemma ClearReady(huge: nat, level: nat, t: Table, t': Table, a: Alloc, k: nat, entered: bool)
    requires Valid(level, t) && Shape(huge, level, a) && Backed(a, t) && a.items != [] && k < |a.items|
    requires Cleared(level, t, t', a, k, entered)
    ensures WellSized(t') && a.items[k].index < NPAGES
    ensures a.items[k].SubTable? ==>
      ItemBacked(a.items[k], t') && t'.subs[a.items[k].index].Some? && Valid(level - 1, t'.subs[a.items[k].index].value)
  {
    hide Get, ViewAt, Shape, ItemCleared;
    ItemInRange(huge, level, a, t, k);
    if a.items[k].SubTable? {
      assert SlotValid(level, t, a.items[k].index);
    }
  }

  lemma PageCleared(huge: nat, level: nat, t: Table, t1: Table, t': Table, a: Alloc, k: nat)
    requires Valid(level, t) && Shape(huge, level, a) && Backed(a, t) && a.items != [] && k < |a.items|
    requires Cleared(level, t, t1, a, k, false) && a.items[k].index < NPAGES && WellSized(t1)
    requires t' == if a.items[k].Page? then SetEntry(t1, a.items[k].index, Unused) else t1
    ensures Cleared(level, t, t', a, k + 1, false)
  {
    hide Get, Valid, ViewAt, Shape, Backed;
    ClearStep(huge, level, t, t1, t', a, k, false);
  }

  lemma SubCleared(huge: nat, level: nat, t: Table, t1: Table, t': Table, a: Alloc, k: nat)
    requires Shape(huge, level, a) && a.items != [] && k < |a.items|
    requires Cleared(level, t, t1, a, k, true) && WellSized(t1) && a.items[k].index < NPAGES
    requires a.items[k].Page? ==> t' == t1
    requires a.items[k].SubTable? ==>
      SameExcept(t1, t', a.items[k].index) && t'.bitmap == t1.bitmap && ItemCleared(level, t1, t', a.items[k])
    ensures Cleared(level, t, t', a, k + 1, true)
  {
    hide Get, Valid, ViewAt, Shape, Released;
    ClearStep(huge, level, t, t1, t', a, k, true);
  }
}
