/** Writing to every entry of an allocation: mapping it to physical memory, or marking it absent. */
module PageMapping {
  import opened Options
  import opened Layout
  import opened Entries
  import opened Availability
  import opened PageTables
  import opened Allocations
  import opened Slots
  import opened Trimming
  import opened Clearing

  /** What is written: frames from a base address on, or the same absent data everywhere. */
  datatype Action = MapTo(base: nat, flags: PageFlags) | MarkAbsent(data: nat)

  /** `size` bytes from `offset` on can be written without a panic. */
  ghost predicate Placed(action: Action, offset: nat, size: nat)
  {
    && offset % MIN_PAGE_SIZE == 0
    && (action.MapTo? ==> action.base % MIN_PAGE_SIZE == 0 && action.base + offset + size <= PHYS_LIMIT)
  }

  /** What is written reads as an unused entry. */
  ghost predicate Clears(action: Action)
  {
    action.MarkAbsent? && action.data % (WORD / 2) == 0
  }

  ghost predicate Writable(action: Action, offset: nat, size: nat)
  {
    Placed(action, offset, size) && !Clears(action)
  }

  function EntryFor(action: Action, offset: nat): Entry
    requires offset % MIN_PAGE_SIZE == 0
    requires action.MapTo? ==> action.base % MIN_PAGE_SIZE == 0 && action.base + offset < PHYS_LIMIT
  {
    match action
    case MapTo(base, flags) => HugeEntry(base + offset, flags)
    case MarkAbsent(data) => AbsentEntry(data)
  }

  ghost function GrantOf(action: Action): TransitiveFlags
  {
    if action.MapTo? then action.flags.t else NO_TRANSITIVE
  }

  /** What an address `v` shows afterwards, if an entry of level `l` decides about it and it is
      `offset` bytes into the allocation. A frame of that level must be aligned to its size. */
  ghost function Effect(action: Action, l: nat, offset: nat, v: nat): Mapping
  {
    match action
    case MapTo(base, flags) => ReadAt(l, base + offset, v, flags)
    case MarkAbsent(_) =>
      NotPresent(if AbsentEntry(action.data).Absent? then AbsentEntry(action.data).data else 0)
  }

  ghost function ActedView(view: View, action: Action, offset: nat, v: nat): View
  {
    if view.Used? then Used(view.level, Effect(action, view.level, offset, v)) else Free
  }

  /** Every address of `a` shows the effect, and no other address changed. */
  ghost predicate Acted(level: nat, t: Table, t': Table, a: Alloc, parentOffset: nat, action: Action)
  {
    forall v: nat :: ViewAt(level, t', v) ==
      if Covers(a, v) then ActedView(ViewAt(level, t, v), action, parentOffset + v - StartAddr(a), v)
      else ViewAt(level, t, v)
  }

  ghost predicate ItemActed(level: nat, t: Table, t': Table, item: Item, parentOffset: nat, action: Action)
  {
    forall o: nat :: o < PageSize(level) ==>
      SlotView(level, t', item.index, o) ==
        if Lo(item) <= o < Hi(level, item)
        then ActedView(SlotView(level, t, item.index, o), action, parentOffset + item.offset + o - Lo(item), o)
        else SlotView(level, t, item.index, o)
  }

  // ---- One item ----

  /** At most the flags of the action are granted anew. */
  ghost predicate OnlyGrants(t: Table, t': Table, action: Action)
  {
    forall f :: Below(t, f) && Within(GrantOf(action), f) ==> Below(t', f)
  }

  /** What writing an item's entry achieves; a sub-table is only opened for the flags to come. */
  ghost predicate EntryActed(level: nat, t: Table, t': Table, item: Item, parentOffset: nat, action: Action)
    requires WellSized(t') && item.index < NPAGES
  {
    match item
    case Page(_, _) => ItemActed(level, t, t', item, parentOffset, action)
    case SubTable(i, _, _) =>
      && (forall o: nat :: SlotView(level, t', i, o) == SlotView(level, t, i, o))
      && Within(GrantOf(action), EntryFlags(t'.entries[i]))
  }

  method ActOnEntry(ghost huge: nat, level: nat, t: Table, item: Item, parentOffset: nat, action: Action)
    returns (t': Table)
    requires WellSized(t) && item.index < NPAGES && Lo(item) < Hi(level, item) && parentOffset % MIN_PAGE_SIZE == 0
    requires Placed(action, parentOffset + item.offset, Hi(level, item) - Lo(item))
    requires !Clears(action) ==> Valid(level, t) && ItemShape(huge, level, item) && ItemBacked(item, t)
    ensures !Clears(action) ==>
      && Valid(level, t') && SameExcept(t, t', item.index) && t'.subs == t.subs && OnlyGrants(t, t', action)
      && ItemBacked(item, t') && EntryActed(level, t, t', item, parentOffset, action) && SameUse(t, t')
    ensures Clears(action) ==> t' == if item.Page? then SetEntry(t, item.index, Unused) else t
  {
    hide Valid, SlotValid, SlotView, ViewAt, Shape, PageSize, Get, StartAddr, EndAddr;
    var i := item.index;
    match item
    case Page(_, offset) =>
      t' := SetEntry(t, i, EntryFor(action, parentOffset + offset));
      if Clears(action) {
        AbsentRoundTrip(action.data);
      } else {
        PageWritten(level, t, i, action, parentOffset + offset, item, parentOffset);
      }
    case SubTable(_, _, _) =>
      if action.MapTo? {
        SlotSub(level, t, i);
      }
      t' := if action.MapTo? then SetEntry(t, i, AddSubtableFlags(false, t.entries[i], action.flags)) else t;
      if !Clears(action) {
        SlotSub(level, t, i);
        FlagsAdded(level, t, i, action);
      }
  }

  lemma PageWritten(level: nat, t: Table, i: nat, action: Action, offset: nat, item: Item, parentOffset: nat)
    requires Valid(level, t) && i < NPAGES && t.subs[i].None? && (t.entries[i].Absent? || t.entries[i].Mapped?)
    requires Writable(action, offset, PageSize(level))
    requires item == Page(i, item.offset) && offset == parentOffset + item.offset
    ensures var t' := SetEntry(t, i, EntryFor(action, offset));
            && Valid(level, t') && SameExcept(t, t', i) && OnlyGrants(t, t', action)
            && (t'.entries[i].Absent? || t'.entries[i].Mapped?)
            && ItemActed(level, t, t', item, parentOffset, action)
  {
    hide PageSize, CalcFlags;
    var e := EntryFor(action, offset);
    var t' := SetEntry(t, i, e);
    PageEntry(level, action, offset);
    assert SlotValid(level, t, i) && SlotValid(level, t', i);
    OneSlot(level, t, t', i);
    hide Valid, SlotValid, Below;
    forall o: nat | o < PageSize(level)
      ensures SlotView(level, t', i, o) == ActedView(SlotView(level, t, i, o), action, offset + o, o)
    {
      PageView(level, t, i, o);
      PageView(level, t', i, o);
    }
  }

  lemma PageView(level: nat, t: Table, i: nat, o: nat)
    requires Valid(level, t) && i < NPAGES && t.subs[i].None?
    ensures SlotView(level, t, i, o) == LeafView(level, t.entries[i], o)
  {
  }

  /** An entry keeps the low 63 bits. */
  lemma AbsentData63(data: nat)
    requires data % (WORD / 2) != 0
    ensures AbsentEntry(data) == Absent(data % (WORD / 2))
  {
    var q, r := Divided(data, WORD / 2);
    DivUniqueSum(data * 2, WORD, q, 2 * r);
  }

  lemma PageEntry(level: nat, action: Action, offset: nat)
    requires Writable(action, offset, PageSize(level))
    ensures var e := EntryFor(action, offset);
            && (e.Absent? || e.Mapped?) && EntryValid(level, e)
            && (e.Mapped? ==> Within(EntryFlags(e), GrantOf(action)))
            && forall o: nat :: o < PageSize(level) ==>
              LeafView(level, e, o) == Used(level, Effect(action, level, offset + o, o))
  {
    hide PageSize, CalcFlags, DeserFlags, AbsentEntry;
    match action {
      case MarkAbsent(data) =>
        AbsentData63(data);
      case MapTo(base, flags) =>
        MappedEntry(level, base + offset, flags);
        forall o: nat | o < PageSize(level)
          ensures LeafView(level, EntryFor(action, offset), o) == Used(level, Effect(action, level, offset + o, o))
        {
          AlignedWithin(base + offset, o, PageSize(level));
        }
    }
  }

  lemma MappedEntry(level: nat, addr: nat, flags: PageFlags)
    requires addr % MIN_PAGE_SIZE == 0 && addr < PHYS_LIMIT
    ensures var e := HugeEntry(addr, flags);
            e.addr == addr && DeserFlags(e.bits) == flags && EntryFlags(e) == flags.t
  {
  }

  lemma FlagsAdded(level: nat, t: Table, i: nat, action: Action)
    requires Valid(level, t) && i < NPAGES && t.subs[i].Some? && t.entries[i].Link?
    ensures var t' := if action.MapTo? then SetEntry(t, i, AddSubtableFlags(false, t.entries[i], action.flags)) else t;
            && Valid(level, t') && SameExcept(t, t', i) && OnlyGrants(t, t', action)
            && (forall o: nat :: SlotView(level, t', i, o) == SlotView(level, t, i, o))
            && Within(GrantOf(action), EntryFlags(t'.entries[i]))
  {
    var t' := if action.MapTo? then SetEntry(t, i, AddSubtableFlags(false, t.entries[i], action.flags)) else t;
    SlotSub(level, t, i);
    assert SlotValid(level, t, i);
    if action.MapTo? {
      FlagsUnion(action.flags, t.entries[i].bits);
    }
    hide PageSize, CalcFlags, DeserFlags;
    assert Below(t.subs[i].value, EntryFlags(t'.entries[i]));
    assert SlotValid(level, t', i);
    OneSlot(level, t, t', i);
    forall o: nat
      ensures SlotView(level, t', i, o) == SlotView(level, t, i, o)
    {
      SubView(level, t, i, o);
      SubView(level, t', i, o);
    }
    forall f | Below(t, f) && Within(GrantOf(action), f)
      ensures Below(t', f)
    {
      assert Grants(t, i);
    }
  }

  method ActInside(ghost huge: nat, level: nat, t: Table, item: Item, parentOffset: nat, action: Action)
    returns (t': Table)
    requires WellSized(t) && ItemShape(huge, level, item) && ItemBacked(item, t) && item.SubTable?
    requires Valid(level - 1, t.subs[item.index].value)
    requires Lo(item) < Hi(level, item) && parentOffset % MIN_PAGE_SIZE == 0
    requires Placed(action, parentOffset + item.offset, Hi(level, item) - Lo(item))
    requires !Clears(action) ==> Valid(level, t) && Within(GrantOf(action), EntryFlags(t.entries[item.index]))
    ensures SameExcept(t, t', item.index) && t'.bitmap == t.bitmap
    ensures !Clears(action) ==>
      && Valid(level, t') && NoNewFlags(t, t') && ItemActed(level, t, t', item, parentOffset, action)
      && StaysTidy(level, t, t') && SameUse(t, t')
    ensures Clears(action) ==> ItemCleared(level, t, t', item)
    decreases level, 0
  {
    hide Valid, SlotValid, Below, SlotView, ViewAt, Shape, PageSize, Get, StartAddr, EndAddr, Trimmed, CodesExact;
    var i := item.index;
    var s := ForEach(huge, level - 1, t.subs[i].value, item.alloc, parentOffset + item.offset, action);
    t' := SetSub(t, i, Some(s));
    if !Clears(action) {
      ActedInside(level, t, item, parentOffset, action, s);
      TidyInside(level, t, i, s);
    }
  }

  lemma ActedInside(level: nat, t: Table, item: Item, parentOffset: nat, action: Action, s: Table)
    requires Valid(level, t) && level > 1 && item.SubTable? && item.index < NPAGES && WellSized(t)
    requires t.subs[item.index].Some?
    requires Within(GrantOf(action), EntryFlags(t.entries[item.index]))
    requires Valid(level - 1, s) && OnlyGrants(t.subs[item.index].value, s, action)
    requires Acted(level - 1, t.subs[item.index].value, s, item.alloc, parentOffset + item.offset, action)
    ensures var t' := SetSub(t, item.index, Some(s));
            && Valid(level, t') && SameExcept(t, t', item.index) && NoNewFlags(t, t')
            && ItemActed(level, t, t', item, parentOffset, action)
  {
    var i := item.index;
    var t' := SetSub(t, i, Some(s));
    assert SlotValid(level, t, i);
    assert Below(s, EntryFlags(t'.entries[i]));
    assert SlotValid(level, t', i);
    hide Valid, SlotValid, PageSize, Get, StartAddr, EndAddr;
    OneSlot(level, t, t', i);
    assert NoNewFlags(t, t') by {
      forall f | Below(t, f)
        ensures Below(t', f)
      {
        assert Grants(t', i) ==> Grants(t, i);
      }
    }
    hide Below, SlotView, ViewAt;
    forall o: nat | o < PageSize(level)
      ensures SlotView(level, t', i, o) ==
        if Lo(item) <= o < Hi(level, item)
        then ActedView(SlotView(level, t, i, o), action, parentOffset + item.offset + o - Lo(item), o)
        else SlotView(level, t, i, o)
    {
      SubView(level, t, i, o);
      SubView(level, t', i, o);
      assert Covers(item.alloc, o) <==> Lo(item) <= o < Hi(level, item);
    }
  }

  // ---- The whole allocation ----

  /** Items up to `k` are written, in a first pass over the entries of this level and, once `entered`,
      in a second pass inside the sub-tables. */
  ghost predicate Progress(level: nat, t: Table, t': Table, a: Alloc, parentOffset: nat, action: Action, k: nat,
                           entered: bool)
    requires a.items != []
  {
    && Valid(level, t') && WellSized(t) && WellSized(t') && OnlyGrants(t, t', action) && k <= |a.items|
    && (forall j :: 0 <= j < NPAGES && !(a.items[0].index <= j < a.items[0].index + |a.items|) ==> SameSlot(t, t', j))
    && (forall m :: 0 <= m < |a.items| ==> a.items[m].index < NPAGES)
    && (forall m :: 0 <= m < |a.items| && (entered ==> k <= m) ==> ItemBacked(a.items[m], t'))
    && (forall m :: 0 <= m < |a.items| ==>
          if entered then
            if m < k || a.items[m].Page? then ItemActed(level, t, t', a.items[m], parentOffset, action)
            else EntryActed(level, t, t', a.items[m], parentOffset, action)
          else
            if m < k then EntryActed(level, t, t', a.items[m], parentOffset, action)
            else SameSlot(t, t', a.items[m].index))
  }

  /** Act on every entry of an allocation. Data that reads as an unused entry breaks the invariant: the
      addresses of the allocation look free while its slots still count as used. */
  method ForEach(ghost huge: nat, level: nat, t: Table, a: Alloc, parentOffset: nat, action: Action) returns (t': Table)
    requires Valid(level, t) && Shape(huge, level, a) && Backed(a, t)
    requires StartAddr(a) < EndAddr(a) && Placed(action, parentOffset, EndAddr(a) - StartAddr(a))
    ensures Valid(level, t') <==> !Clears(action)
    ensures !Clears(action) ==>
      && OnlyGrants(t, t', action) && Acted(level, t, t', a, parentOffset, action)
      && Backed(a, t') && StaysTidy(level, t, t') && SameUse(t, t')
    ensures Clears(action) ==> Released(level, t, t', a)
    decreases level, 1
  {
    hide Valid, SlotValid, Below, SlotView, ViewAt, Shape, PageSize, Get, StartAddr, EndAddr, Backed;
    hide ItemShape, ItemBacked;
    hide Progress, Cleared, ItemCleared, Lo, Hi, Trimmed, CodesExact;
    Sized(level, t);
    NonEmpty(huge, level, a);
    ProgressStart(huge, level, t, a, parentOffset, action);
    ClearStart(huge, level, t, a);
    t' := t;
    // Entries of this level
    for k := 0 to |a.items|
      invariant if Clears(action) then Cleared(level, t, t', a, k, false)
                else Progress(level, t, t', a, parentOffset, action, k, false)
      invariant !Clears(action) ==> StaysTidy(level, t, t') && SameUse(t, t')
    {
      ghost var before := t';
      ItemPlaced(huge, level, a, parentOffset, action, k);
      if Clears(action) {
        ClearReady(huge, level, t, t', a, k, false);
      } else {
        ProgressReady(huge, level, t, t', a, parentOffset, action, k, false);
      }
      t' := ActOnEntry(huge, level, t', a.items[k], parentOffset, action);
      if Clears(action) {
        PageCleared(huge, level, t, before, t', a, k);
      } else {
        ProgressEntry(huge, level, t, before, t', a, parentOffset, action, k);
        TidyEntries(level, before, t');
      }
    }
    if Clears(action) {
      ClearTurn(level, t, t', a);
    } else {
      ProgressTurn(huge, level, t, t', a, parentOffset, action);
    }
    // Inside the sub-allocators
    for k := 0 to |a.items|
      invariant if Clears(action) then Cleared(level, t, t', a, k, true)
                else Progress(level, t, t', a, parentOffset, action, k, true)
      invariant !Clears(action) ==> StaysTidy(level, t, t') && SameUse(t, t')
    {
      ghost var before := t';
      ItemPlaced(huge, level, a, parentOffset, action, k);
      if Clears(action) {
        ClearReady(huge, level, t, t', a, k, true);
      }
      if a.items[k].SubTable? {
        if !Clears(action) {
          ProgressReady(huge, level, t, t', a, parentOffset, action, k, true);
          SubReady(level, t', a.items[k]);
        }
        t' := ActInside(huge, level, t', a.items[k], parentOffset, action);
      }
      if Clears(action) {
        SubCleared(huge, level, t, before, t', a, k);
      } else {
        ProgressInside(huge, level, t, before, t', a, parentOffset, action, k);
      }
    }
    if Clears(action) {
      ClearDone(huge, level, t, t', a);
    } else {
      ProgressDone(huge, level, t, t', a, parentOffset, action);
      ActedBacked(huge, level, t, t', a, parentOffset, action);
    }
  }

  lemma ItemPlaced(huge: nat, level: nat, a: Alloc, parentOffset: nat, action: Action, k: nat)
    requires Shape(huge, level, a) && k < |a.items| && StartAddr(a) < EndAddr(a)
    requires Placed(action, parentOffset, EndAddr(a) - StartAddr(a))
    ensures a.items[k].index < NPAGES && ItemShape(huge, level, a.items[k]) && Lo(a.items[k]) < Hi(level, a.items[k])
    ensures parentOffset % MIN_PAGE_SIZE == 0
    ensures Placed(action, parentOffset + a.items[k].offset, Hi(level, a.items[k]) - Lo(a.items[k]))
  {
    hide PageSize, StartAddr, EndAddr, Lo, Hi;
    ItemFits(huge, level, a, k);
    AlignedPlus(parentOffset, a.items[k].offset, MIN_PAGE_SIZE);
  }

  lemma SubReady(level: nat, t: Table, item: Item)
    requires Valid(level, t) && WellSized(t) && item.SubTable? && item.index < NPAGES && ItemBacked(item, t)
    ensures t.subs[item.index].Some? && Valid(level - 1, t.subs[item.index].value)
  {
    hide Valid, Backed;
    SlotSub(level, t, item.index);
  }

  /** Writing entries does not take anything away from the allocation. */
  lemma ActedBacked(huge: nat, level: nat, t: Table, t': Table, a: Alloc, parentOffset: nat, action: Action)
    requires Valid(level, t) && Valid(level, t') && Shape(huge, level, a) && Backed(a, t)
    requires Acted(level, t, t', a, parentOffset, action)
    ensures Backed(a, t')
    ensures forall v: nat :: Covers(a, v) ==> ViewAt(level, t, v).Used? && ViewAt(level, t', v).Used?
  {
    hide Valid, Shape, Backed, StartAddr, EndAddr, ViewAt;
    forall v: nat | Covers(a, v)
      ensures SameLeaf(ViewAt(level, t, v), ViewAt(level, t', v)) && ViewAt(level, t, v).Used?
    {
      BackedUsed(huge, level, a, t, v);
      assert ViewAt(level, t', v) == ActedView(ViewAt(level, t, v), action, parentOffset + v - StartAddr(a), v);
    }
    BackedByView(huge, level, a, t, t');
  }

  lemma ProgressStart(huge: nat, level: nat, t: Table, a: Alloc, parentOffset: nat, action: Action)
    requires Valid(level, t) && Shape(huge, level, a) && Backed(a, t)
    ensures Progress(level, t, t, a, parentOffset, action, 0, false)
  {
  }

  /** Items lie inside the range of the allocation, at page boundaries. */
  lemma ItemFits(huge: nat, level: nat, a: Alloc, k: nat)
    requires Shape(huge, level, a) && k < |a.items|
    ensures Lo(a.items[k]) < Hi(level, a.items[k])
    ensures a.items[k].offset + Hi(level, a.items[k]) - Lo(a.items[k]) <= EndAddr(a) - StartAddr(a)
    ensures a.items[k].offset % MIN_PAGE_SIZE == 0
  {
    hide PageSize;
    ShapeBounds(huge, level, a);
    ItemOffset(huge, level, a, k);
    ItemCovers(huge, level, a, k, Hi(level, a.items[k]) - 1);
    RangeAligned(huge, level, a);
    assert ItemShape(huge, level, a.items[k]);
    if a.items[k].SubTable? {
      RangeAligned(huge, level - 1, a.items[k].alloc);
    }
    hide Shape, StartAddr, EndAddr;
    AlignedSum(a.items[k].index, PageSize(level), Lo(a.items[k]), MIN_PAGE_SIZE);
    AlignedDifference(a.items[k].index * PageSize(level) + Lo(a.items[k]), StartAddr(a), MIN_PAGE_SIZE);
  }

  lemma {:induction false} RangeAligned(huge: nat, level: nat, a: Alloc)
    requires Shape(huge, level, a)
    ensures StartAddr(a) % MIN_PAGE_SIZE == 0 && EndAddr(a) % MIN_PAGE_SIZE == 0
    decreases level, 1
  {
    hide PageSize, StartAddr, EndAddr, Lo, Hi, SlotAddr;
    var first, last := a.items[0], a.items[|a.items| - 1];
    assert ItemShape(huge, level, first) && ItemShape(huge, level, last);
    ItemAligned(huge, level, first);
    ItemAligned(huge, level, last);
    Ends(huge, level, a);
    AlignedPlus(SlotAddr(level, first.index), Lo(first), MIN_PAGE_SIZE);
    AlignedPlus(SlotAddr(level, last.index), Hi(level, last), MIN_PAGE_SIZE);
  }

  lemma {:induction false} ItemAligned(huge: nat, level: nat, item: Item)
    requires ItemShape(huge, level, item)
    ensures Lo(item) % MIN_PAGE_SIZE == 0 && Hi(level, item) % MIN_PAGE_SIZE == 0
    ensures SlotAddr(level, item.index) % MIN_PAGE_SIZE == 0
    decreases level, 0
  {
    hide PageSize, StartAddr, EndAddr;
    AlignedSum(item.index, PageSize(level), 0, MIN_PAGE_SIZE);
    if item.SubTable? {
      RangeAligned(huge, level - 1, item.alloc);
    }
  }

  /** What the next step needs. */
  lemma ProgressReady(huge: nat, level: nat, t: Table, t': Table, a: Alloc, parentOffset: nat, action: Action, k: nat,
                      entered: bool)
    requires Shape(huge, level, a) && k < |a.items| && StartAddr(a) < EndAddr(a)
    requires Writable(action, parentOffset, EndAddr(a) - StartAddr(a))
    requires Progress(level, t, t', a, parentOffset, action, k, entered)
    ensures Valid(level, t') && WellSized(t') && a.items[k].index < NPAGES
    ensures ItemShape(huge, level, a.items[k]) && ItemBacked(a.items[k], t')
    ensures Lo(a.items[k]) < Hi(level, a.items[k]) && parentOffset % MIN_PAGE_SIZE == 0
    ensures Writable(action, parentOffset + a.items[k].offset, Hi(level, a.items[k]) - Lo(a.items[k]))
    ensures entered && a.items[k].SubTable? ==> Within(GrantOf(action), EntryFlags(t'.entries[a.items[k].index]))
  {
    hide SlotView, ViewAt, PageSize, Get, StartAddr, EndAddr, SlotValid, Valid, Below;
    ItemFits(huge, level, a, k);
    AlignedPlus(parentOffset, a.items[k].offset, MIN_PAGE_SIZE);
    assert entered && a.items[k].SubTable? ==> EntryActed(level, t, t', a.items[k], parentOffset, action);
  }

  lemma IndexOf(huge: nat, level: nat, a: Alloc, k: nat, m: nat)
    requires Shape(huge, level, a) && k < |a.items| && m < |a.items|
    ensures a.items[k].index == a.items[0].index + k && (a.items[m].index == a.items[k].index <==> m == k)
  {
  }

  /** A written item stays written when another slot changes. */
  lemma WrittenFrame(level: nat, t: Table, t1: Table, t': Table, item: Item, parentOffset: nat, action: Action)
    requires item.index < NPAGES && WellSized(t1) && WellSized(t') && SameSlot(t1, t', item.index)
    ensures ItemActed(level, t, t1, item, parentOffset, action) ==> ItemActed(level, t, t', item, parentOffset, action)
    ensures EntryActed(level, t, t1, item, parentOffset, action) ==>
      EntryActed(level, t, t', item, parentOffset, action)
    ensures ItemBacked(item, t1) ==> ItemBacked(item, t')
  {
  }

  lemma ProgressEntry(huge: nat, level: nat, t: Table, t1: Table, t': Table, a: Alloc, parentOffset: nat,
                      action: Action, k: nat)
    requires Shape(huge, level, a) && k < |a.items|
    requires Progress(level, t, t1, a, parentOffset, action, k, false)
    requires Valid(level, t') && SameExcept(t1, t', a.items[k].index) && OnlyGrants(t1, t', action)
    requires a.items[k].index < NPAGES && ItemBacked(a.items[k], t')
    requires EntryActed(level, t1, t', a.items[k], parentOffset, action)
    ensures Progress(level, t, t', a, parentOffset, action, k + 1, false)
  {
    hide SlotView, ViewAt, PageSize, Get, StartAddr, EndAddr, SlotValid, Valid, Below, Shape, EntryActed, ItemBacked;
    IndexOf(huge, level, a, k, k);
    forall j | 0 <= j < NPAGES && !(a.items[0].index <= j < a.items[0].index + |a.items|)
      ensures SameSlot(t, t', j)
    {
      assert SameSlot(t, t1, j) && SameSlot(t1, t', j);
    }
    forall m | 0 <= m < |a.items|
      ensures ItemBacked(a.items[m], t')
      ensures if m < k + 1 then EntryActed(level, t, t', a.items[m], parentOffset, action)
              else SameSlot(t, t', a.items[m].index)
    {
      IndexOf(huge, level, a, k, m);
      if m == k {
        EntryActedSince(level, t, t1, t', a.items[k], parentOffset, action);
      } else {
        WrittenFrame(level, t, t1, t', a.items[m], parentOffset, action);
      }
    }
  }

  lemma EntryActedSince(level: nat, t: Table, t1: Table, t': Table, item: Item, parentOffset: nat, action: Action)
    requires item.index < NPAGES && WellSized(t) && WellSized(t1) && WellSized(t') && SameSlot(t, t1, item.index)
    requires EntryActed(level, t1, t', item, parentOffset, action)
    ensures EntryActed(level, t, t', item, parentOffset, action)
  {
  }

  lemma ProgressTurn(huge: nat, level: nat, t: Table, t': Table, a: Alloc, parentOffset: nat, action: Action)
    requires Shape(huge, level, a)
    requires Progress(level, t, t', a, parentOffset, action, |a.items|, false)
    ensures Progress(level, t, t', a, parentOffset, action, 0, true)
  {
  }

  lemma ProgressInside(huge: nat, level: nat, t: Table, t1: Table, t': Table, a: Alloc, parentOffset: nat,
                       action: Action, k: nat)
    requires Shape(huge, level, a) && k < |a.items|
    requires Progress(level, t, t1, a, parentOffset, action, k, true)
    requires a.items[k].Page? ==> t' == t1
    requires a.items[k].SubTable? ==>
      && Valid(level, t') && SameExcept(t1, t', a.items[k].index) && NoNewFlags(t1, t')
      && ItemActed(level, t1, t', a.items[k], parentOffset, action)
    ensures Progress(level, t, t', a, parentOffset, action, k + 1, true)
  {
    hide SlotView, ViewAt, PageSize, Get, StartAddr, EndAddr, SlotValid, Valid, Below, Shape, ItemBacked, ItemActed;
    if a.items[k].SubTable? {
      IndexOf(huge, level, a, k, k);
      forall j | 0 <= j < NPAGES && !(a.items[0].index <= j < a.items[0].index + |a.items|)
        ensures SameSlot(t, t', j)
      {
        assert SameSlot(t, t1, j) && SameSlot(t1, t', j);
      }
      forall m | 0 <= m < |a.items|
        ensures k + 1 <= m ==> ItemBacked(a.items[m], t')
        ensures if m < k + 1 || a.items[m].Page? then ItemActed(level, t, t', a.items[m], parentOffset, action)
                else EntryActed(level, t, t', a.items[m], parentOffset, action)
      {
        IndexOf(huge, level, a, k, m);
        if m == k {
          ItemActedSince(level, t, t1, t', a.items[k], parentOffset, action);
        } else {
          WrittenFrame(level, t, t1, t', a.items[m], parentOffset, action);
        }
      }
    }
  }

  lemma ItemActedSince(level: nat, t: Table, t1: Table, t': Table, item: Item, parentOffset: nat, action: Action)
    requires item.index < NPAGES && item.SubTable? && WellSized(t1) && WellSized(t')
    requires EntryActed(level, t, t1, item, parentOffset, action)
    requires ItemActed(level, t1, t', item, parentOffset, action)
    ensures ItemActed(level, t, t', item, parentOffset, action)
  {
  }

  lemma ProgressDone(huge: nat, level: nat, t: Table, t': Table, a: Alloc, parentOffset: nat, action: Action)
    requires Shape(huge, level, a)
    requires Progress(level, t, t', a, parentOffset, action, |a.items|, true)
    ensures Valid(level, t') && OnlyGrants(t, t', action) && Acted(level, t, t', a, parentOffset, action)
  {
    hide SlotView, ViewAt, PageSize, Get, StartAddr, EndAddr, SlotValid, Valid, Below, Shape;
    forall v: nat
      ensures ViewAt(level, t', v) ==
        if Covers(a, v) then ActedView(ViewAt(level, t, v), action, parentOffset + v - StartAddr(a), v)
        else ViewAt(level, t, v)
    {
      ActedAt(huge, level, t, t', a, parentOffset, action, v);
    }
  }

  lemma ActedAt(huge: nat, level: nat, t: Table, t': Table, a: Alloc, parentOffset: nat, action: Action, v: nat)
    requires Shape(huge, level, a) && WellSized(t) && WellSized(t')
    requires forall j :: 0 <= j < NPAGES && !(a.items[0].index <= j < a.items[0].index + |a.items|) ==>
      SameSlot(t, t', j)
    requires forall m :: 0 <= m < |a.items| ==> ItemActed(level, t, t', a.items[m], parentOffset, action)
    ensures ViewAt(level, t', v) ==
      if Covers(a, v) then ActedView(ViewAt(level, t, v), action, parentOffset + v - StartAddr(a), v)
      else ViewAt(level, t, v)
  {
    hide SlotView, PageSize, Get, StartAddr, EndAddr, Effect, Shape, Lo, Hi;
    NonEmpty(huge, level, a);
    CoversAddr(huge, level, a, v);
    SlotOutside(level, t, v);
    SlotOutside(level, t', v);
    var i, o := v / PageSize(level), v % PageSize(level);
    DivBounds(v, PageSize(level));
    var k := i - a.items[0].index;
    if 0 <= k < |a.items| {
      IndexOf(huge, level, a, k, k);
      ItemOffset(huge, level, a, k);
      assert ItemActed(level, t, t', a.items[k], parentOffset, action);
      if Covers(a, v) {
        EffectByOffset(level, ViewAt(level, t, v), action, parentOffset + v - StartAddr(a), i, o, t, v);
      }
    } else if i < NPAGES {
      assert SameSlot(t, t', i);
      SameSlotView(level, t, t', i);
    }
  }

  /** Alignment can be judged by the offset inside a slot of any higher level. */
  lemma EffectByOffset(level: nat, view: View, action: Action, offset: nat, i: nat, o: nat, t: Table, v: nat)
    requires view == ViewAt(level, t, v) && v == i * PageSize(level) + o
    ensures ActedView(view, action, offset, o) == ActedView(view, action, offset, v)
  {
    LeafLevelBound(level, t, v);
    if view.Used? {
      var l := view.level;
      hide ViewAt;
      SameRemainder(level, l, i, o);
    }
  }

  lemma SameRemainder(level: nat, l: nat, i: nat, o: nat)
    requires l <= level
    ensures (i * PageSize(level) + o) % PageSize(l) == o % PageSize(l)
  {
    if 1 <= l {
      var m := PageRatio(level, l);
      hide PageSize;
      RemainderOfSum(i, m, PageSize(l), o);
    } else if 1 <= level {
      var m := PageRatio(level, 1);
      assert PageSize(l) == PageSize(1);
      hide PageSize;
      RemainderOfSum(i, m, PageSize(1), o);
    } else {
      RemainderOfSum(i, 1, PageSize(l), o);
    }
  }
}
