/** Changing one slot of an allocator, and giving and taking back the addresses of an allocation. */
module Slots {
  import opened Options
  import opened Layout
  import opened Entries
  import opened Availability
  import opened PageTables
  import opened Allocations

  function CountUsed(entries: seq<Entry>): nat
  {
    if entries == [] then 0
    else (if entries[0].Unused? then 0 else 1) + CountUsed(entries[1..])
  }

  function NumPagesUsed(t: Table): nat
  {
    CountUsed(t.entries)
  }

  lemma {:induction false} NoneUsed(entries: seq<Entry>)
    ensures CountUsed(entries) == 0 <==> forall i :: 0 <= i < |entries| ==> entries[i] == Unused
  {
    if entries != [] {
      var rest := entries[1..];
      NoneUsed(rest);
      assert forall i :: 0 < i < |entries| ==> entries[i] == rest[i - 1];
      assert forall i :: 0 <= i < |rest| ==> rest[i] == entries[i + 1];
    }
  }

  /** How a sub-table appears in the bitmap of its parent. */
  function TableCode(s: Table): (code: bv8)
    ensures EMPTY < code <= FULL
  {
    if NumPagesUsed(s) >= NPAGES && IsFull(s.bitmap) then FULL
    else if NumPagesUsed(s) > NPAGES / 2 then HALF_FULL
    else TABLE
  }

  /** What the bitmap should say about slot `i`. */
  function AvailabilityOf(t: Table, i: nat): (code: bv8)
    requires i < |t.entries| && i < |t.subs|
    ensures code <= FULL && (t.subs[i].Some? ==> code != EMPTY)
    ensures t.subs[i].None? ==> code == if t.entries[i].Unused? then EMPTY else FULL
  {
    match t.subs[i]
    case Some(s) => TableCode(s)
    case None => if t.entries[i].Unused? then EMPTY else FULL
  }

  function RefreshAvailability(t: Table, i: nat): (r: Table)
    requires i < NPAGES && i < |t.entries| && i < |t.subs|
  {
    t.(bitmap := Set(t.bitmap, i, AvailabilityOf(t, i)))
  }

  /** Slot `i` gets a fresh sub-allocator, and an entry pointing to it, unless it has one. */
  function GetSubtableAlways(t: Table, i: nat): (r: Table)
    requires i < |t.entries| && i < |t.subs|
  {
    if t.subs[i].Some? then t
    else t.(entries := t.entries[i := SubtableEntry()], subs := t.subs[i := Some(NewTable())])
  }

  function SetEntry(t: Table, i: nat, e: Entry): Table
    requires i < |t.entries|
  {
    t.(entries := t.entries[i := e])
  }

  function SetSub(t: Table, i: nat, s: Option<Table>): Table
    requires i < |t.subs|
  {
    t.(subs := t.subs[i := s])
  }

  // ---- Changing one slot ----

  lemma Refreshed(t: Table, i: nat)
    requires WellSized(t) && i < NPAGES
    ensures var r := RefreshAvailability(t, i);
            WellSized(r) && SameExcept(t, r, i) && Get(r.bitmap, i) == AvailabilityOf(t, i)
  {
    SetGet(t.bitmap, i, AvailabilityOf(t, i));
  }

  lemma SameSlotView(level: nat, t: Table, t': Table, i: nat)
    requires WellSized(t) && WellSized(t') && i < NPAGES && SameSlot(t, t', i)
    ensures forall o: nat :: SlotView(level, t, i, o) == SlotView(level, t', i, o)
  {
  }

  /** Replacing one slot by a valid one keeps a table valid and every other slot's view. */
  lemma OneSlot(level: nat, t: Table, t': Table, i: nat)
    requires Valid(level, t) && i < NPAGES && SameExcept(t, t', i) && SlotValid(level, t', i)
    ensures Valid(level, t')
    ensures forall j, o: nat :: 0 <= j < NPAGES && j != i ==> SlotView(level, t, j, o) == SlotView(level, t', j, o)
    ensures forall f :: Below(t, f) && (Grants(t', i) ==> Within(EntryFlags(t'.entries[i]), f)) ==> Below(t', f)
  {
    forall j | 0 <= j < NPAGES && j != i
      ensures SlotValid(level, t', j)
    {
      assert SlotValid(level, t, j) && SameSlot(t, t', j);
    }
    hide SlotValid, Valid;
    forall j, o: nat | 0 <= j < NPAGES && j != i
      ensures SlotView(level, t, j, o) == SlotView(level, t', j, o)
    {
      assert SameSlot(t, t', j);
      SameSlotView(level, t, t', j);
    }
    hide SlotView;
    forall f | Below(t, f) && (Grants(t', i) ==> Within(EntryFlags(t'.entries[i]), f))
      ensures Below(t', f)
    {
      BelowOneSlot(t, t', i, f);
    }
  }

  lemma BelowOneSlot(t: Table, t': Table, i: nat, f: TransitiveFlags)
    requires i < NPAGES && SameExcept(t, t', i)
    requires Below(t, f) && (Grants(t', i) ==> Within(EntryFlags(t'.entries[i]), f))
    ensures Below(t', f)
  {
    forall j: nat | Grants(t', j)
      ensures Within(EntryFlags(t'.entries[j]), f)
    {
      if j != i {
        assert SameSlot(t, t', j) && Grants(t, j);
      }
    }
  }

  /** The sub-allocator that GetSubtableAlways yields for slot `i`. */
  ghost function SubOf(t: Table, i: nat): Table
    requires i < |t.subs|
  {
    if t.subs[i].Some? then t.subs[i].value else NewTable()
  }

  /** Slot `i` may be entered through GetSubtableAlways. */
  ghost predicate Enterable(t: Table, i: nat)
    requires WellSized(t) && i < NPAGES
  {
    t.subs[i].Some? || Get(t.bitmap, i) == EMPTY
  }

  lemma SubOfView(level: nat, t: Table, i: nat)
    requires Valid(level, t) && level > 1 && i < NPAGES && Enterable(t, i)
    ensures Valid(level - 1, SubOf(t, i))
    ensures forall o: nat :: SlotView(level, t, i, o) == ViewAt(level - 1, SubOf(t, i), o)
    ensures GetSubtableAlways(t, i).subs[i] == Some(SubOf(t, i))
  {
    assert SlotValid(level, t, i);
    NewTableValid(level - 1);
    forall o: nat
      ensures SlotView(level, t, i, o) == ViewAt(level - 1, SubOf(t, i), o)
    {
      if t.subs[i].Some? {
        SubView(level, t, i, o);
      } else {
        EmptySlotView(level, t, i, o);
      }
    }
  }

  /** Putting a changed sub-allocator back into a slot that was entered. */
  lemma SubReplaced(level: nat, t: Table, i: nat, s: Table, t': Table)
    requires Valid(level, t) && level > 1 && i < NPAGES && Enterable(t, i)
    requires Valid(level - 1, s) && NoNewFlags(SubOf(t, i), s)
    requires SameExcept(t, t', i)
    requires t'.entries[i] == GetSubtableAlways(t, i).entries[i] && t'.subs[i] == Some(s) && Get(t'.bitmap, i) != EMPTY
    ensures Valid(level, t') && NoNewFlags(t, t')
    ensures forall j, o: nat :: 0 <= j < NPAGES && j != i ==> SlotView(level, t, j, o) == SlotView(level, t', j, o)
    ensures forall o: nat :: SlotView(level, t', i, o) == ViewAt(level - 1, s, o)
  {
    assert SlotValid(level, t, i);
    NewTableValid(level - 1);
    assert Below(SubOf(t, i), EntryFlags(t'.entries[i]));
    assert SlotValid(level, t', i);
    OneSlot(level, t, t', i);
    assert NoNewFlags(t, t') by {
      forall f | Below(t, f)
        ensures Below(t', f)
      {
        assert t.subs[i].Some? ==> Grants(t, i);
      }
    }
    forall o: nat
      ensures SlotView(level, t', i, o) == ViewAt(level - 1, s, o)
    {
      SubView(level, t', i, o);
    }
  }

  /** Write an entry that maps nothing into a slot without sub-allocator, and refresh the bitmap. */
  lemma EntryReplaced(level: nat, t: Table, i: nat, e: Entry)
    requires Valid(level, t) && i < NPAGES && t.subs[i].None? && (e.Unused? || e.Absent?) && EntryValid(level, e)
    ensures var t' := RefreshAvailability(SetEntry(t, i, e), i);
            && Valid(level, t') && NoNewFlags(t, t') && SameExcept(t, t', i)
            && t'.entries[i] == e && t'.subs[i] == None
            && forall o: nat :: SlotView(level, t', i, o) == LeafView(level, e, o)
  {
    var t0 := SetEntry(t, i, e);
    var t' := RefreshAvailability(t0, i);
    Refreshed(t0, i);
    assert SameExcept(t, t', i) by {
      forall j | 0 <= j < NPAGES && j != i
        ensures SameSlot(t, t', j)
      {
        assert SameSlot(t0, t', j);
      }
    }
    assert SlotValid(level, t', i);
    OneSlot(level, t, t', i);
  }

  /** Enter slot `i`, leave the sub-allocator as `s`, and refresh the bitmap. */
  function WithSub(t: Table, i: nat, s: Table): Table
    requires i < NPAGES && i < |t.entries| && i < |t.subs|
  {
    RefreshAvailability(SetSub(GetSubtableAlways(t, i), i, Some(s)), i)
  }

  lemma WithSubFrame(t: Table, i: nat, s: Table)
    requires WellSized(t) && i < NPAGES
    ensures SameExcept(t, WithSub(t, i, s), i) && WithSub(t, i, s).subs[i] == Some(s)
  {
    var t0 := SetSub(GetSubtableAlways(t, i), i, Some(s));
    Refreshed(t0, i);
    hide Get, TableCode;
    forall j | 0 <= j < NPAGES && j != i
      ensures SameSlot(t, WithSub(t, i, s), j)
    {
      assert SameSlot(t0, WithSub(t, i, s), j);
    }
  }

  lemma WithSubValid(level: nat, t: Table, i: nat, s: Table)
    requires Valid(level, t) && level > 1 && i < NPAGES && Enterable(t, i)
    requires Valid(level - 1, s) && NoNewFlags(SubOf(t, i), s)
    ensures var t' := WithSub(t, i, s);
            && Valid(level, t') && NoNewFlags(t, t') && SameExcept(t, t', i) && t'.subs[i] == Some(s)
            && Get(t'.bitmap, i) == TableCode(s)
            && forall o: nat :: SlotView(level, t', i, o) == ViewAt(level - 1, s, o)
  {
    var t0 := SetSub(GetSubtableAlways(t, i), i, Some(s));
    Refreshed(t0, i);
    hide Valid, SlotValid, SlotView, ViewAt, TableCode;
    SubReplaced(level, t, i, s, WithSub(t, i, s));
  }

  /** A fresh sub-table that is not refreshed leaves a slot that looks empty but is not. */
  lemma RefreshNeeded(level: nat, t: Table, i: nat)
    requires level > 1 && Valid(level, t) && i < NPAGES && Get(t.bitmap, i) == EMPTY
    ensures !Valid(level, GetSubtableAlways(t, i))
    ensures Valid(level, RefreshAvailability(GetSubtableAlways(t, i), i))
  {
    hide Get, Set, AvailabilityOf;
    EmptySlotView(level, t, i, 0);
    var t1 := GetSubtableAlways(t, i);
    assert !SlotValid(level, t1, i);
    NewTableValid(level - 1);
    hide SlotValid, Valid;
    WithSubValid(level, t, i, NewTable());
    assert SetSub(t1, i, Some(NewTable())) == t1;
  }

  /** A sub-allocator that shows the same leaves the table showing the same. */
  lemma SubKept(level: nat, t: Table, i: nat, s: Table)
    requires Valid(level, t) && level > 1 && i < NPAGES && t.subs[i].Some?
    requires Valid(level - 1, s) && NoNewFlags(t.subs[i].value, s) && SameView(level - 1, t.subs[i].value, s)
    ensures var t' := SetSub(t, i, Some(s));
            Valid(level, t') && NoNewFlags(t, t') && SameView(level, t, t')
  {
    var t' := SetSub(t, i, Some(s));
    SubOfView(level, t, i);
    assert SlotValid(level, t, i);
    hide Valid, SlotValid, SlotView, ViewAt;
    SubReplaced(level, t, i, s, t');
    forall j, o | 0 <= j < NPAGES && 0 <= o < PageSize(level)
      ensures SlotView(level, t, j, o) == SlotView(level, t', j, o)
    {
      if j == i {
        assert ViewAt(level - 1, t.subs[i].value, o) == ViewAt(level - 1, s, o);
      }
    }
    SlotsToView(level, t, t');
  }

  // ---- Taking and giving back a range ----

  ghost predicate IsReserved(view: View)
  {
    view.Used? && view.mapping == NotPresent(RESERVED)
  }

  /** The addresses of `a` were free and are now reserved; no other address changed. */
  ghost predicate Taken(level: nat, t: Table, t': Table, a: Alloc)
  {
    forall v: nat ::
      if Covers(a, v) then ViewAt(level, t, v) == Free && IsReserved(ViewAt(level, t', v))
      else ViewAt(level, t', v) == ViewAt(level, t, v)
  }

  /** The same, told slot by slot. */
  ghost predicate SlotsTaken(level: nat, t: Table, t': Table, a: Alloc)
    requires a.items != []
  {
    forall i, o :: 0 <= i < NPAGES && 0 <= o < PageSize(level) ==>
      if SlotCovered(level, a, i, o) then SlotView(level, t, i, o) == Free && IsReserved(SlotView(level, t', i, o))
      else SlotView(level, t', i, o) == SlotView(level, t, i, o)
  }

  lemma TakenBySlots(huge: nat, level: nat, t: Table, t': Table, a: Alloc)
    requires Shape(huge, level, a) && WellSized(t) && WellSized(t') && SlotsTaken(level, t, t', a)
    ensures Taken(level, t, t', a)
  {
    hide Shape, SlotCovered, Covers, PageSize, SlotView;
    forall v: nat
      ensures if Covers(a, v) then ViewAt(level, t, v) == Free && IsReserved(ViewAt(level, t', v))
              else ViewAt(level, t', v) == ViewAt(level, t, v)
    {
      CoversAddr(huge, level, a, v);
      SlotOutside(level, t, v);
      SlotOutside(level, t', v);
    }
  }

  /** The addresses of `a` are free; no other address changed. */
  ghost predicate Released(level: nat, t: Table, t': Table, a: Alloc)
  {
    forall v: nat :: ViewAt(level, t', v) == if Covers(a, v) then Free else ViewAt(level, t, v)
  }

  lemma ReleasedBySlots(huge: nat, level: nat, t: Table, t': Table, a: Alloc)
    requires Shape(huge, level, a) && WellSized(t) && WellSized(t')
    requires forall i, o :: 0 <= i < NPAGES && 0 <= o < PageSize(level) ==>
               SlotView(level, t', i, o) == if SlotCovered(level, a, i, o) then Free else SlotView(level, t, i, o)
    ensures Released(level, t, t', a)
  {
    hide Shape, SlotCovered, Covers, PageSize, SlotView;
    forall v: nat
      ensures ViewAt(level, t', v) == if Covers(a, v) then Free else ViewAt(level, t, v)
    {
      CoversAddr(huge, level, a, v);
      SlotOutside(level, t, v);
      SlotOutside(level, t', v);
    }
  }

  lemma SlotOutside(level: nat, t: Table, v: nat)
    requires WellSized(t)
    ensures v / PageSize(level) >= NPAGES ==> ViewAt(level, t, v) == Free
  {
  }

  /** A covered address lies in the table, and is covered through its slot. */
  lemma CoversAddr(huge: nat, level: nat, a: Alloc, v: nat)
    requires Shape(huge, level, a)
    ensures Covers(a, v) <==> SlotCovered(level, a, v / PageSize(level), v % PageSize(level))
    ensures Covers(a, v) ==> v / PageSize(level) < NPAGES
    ensures 0 <= v % PageSize(level) < PageSize(level)
  {
    hide PageSize, Shape, StartAddr, EndAddr, Lo, Hi;
    NonEmpty(huge, level, a);
    DivBounds(v, PageSize(level));
    ShapeBounds(huge, level, a);
    CoversBySlot(huge, level, a, v / PageSize(level), v % PageSize(level));
    SlotInTable(v, PageSize(level), NPAGES);
  }

  /** Taking a range and releasing it again shows every address as before. */
  lemma TakeThenRelease(level: nat, t: Table, t1: Table, t2: Table, a: Alloc)
    requires Taken(level, t, t1, a) && Released(level, t1, t2, a)
    ensures SameView(level, t, t2)
  {
  }

  // ---- Allocations stay backed while their addresses look the same ----

  lemma {:induction false} LeafLevelBound(level: nat, t: Table, v: nat)
    ensures ViewAt(level, t, v).Used? ==> ViewAt(level, t, v).level <= level
    decreases level
  {
    var i, o := v / PageSize(level), v % PageSize(level);
    if level > 0 && i < |t.entries| && i < |t.subs| && t.entries[i].Link? && t.subs[i].Some? {
      LeafLevelBound(level - 1, t.subs[i].value, o);
    }
  }

  /** Still decided by an entry of the same level, and not by a table of somebody else. */
  ghost predicate SameLeaf(view: View, view': View)
  {
    view.Used? ==> view'.Used? && view'.level == view.level && (view.mapping != Shared ==> view'.mapping != Shared)
  }

  lemma {:induction false} BackedByView(huge: nat, level: nat, a: Alloc, t: Table, t': Table)
    requires Valid(level, t) && Valid(level, t') && Shape(huge, level, a) && Backed(a, t)
    requires forall v: nat :: Covers(a, v) ==> SameLeaf(ViewAt(level, t, v), ViewAt(level, t', v))
    ensures Backed(a, t')
    decreases level, 1
  {
    ShapeBounds(huge, level, a);
    forall k | 0 <= k < |a.items|
      ensures ItemBacked(a.items[k], t')
    {
      var item := a.items[k];
      assert ItemShape(huge, level, item);
      forall o: nat | Lo(item) <= o < Hi(level, item)
        ensures SameLeaf(SlotView(level, t, item.index, o), SlotView(level, t', item.index, o))
      {
        ItemCovers(huge, level, a, k, o);
        assert SameLeaf(ViewAt(level, t, item.index * PageSize(level) + o),
                        ViewAt(level, t', item.index * PageSize(level) + o));
      }
      assert ItemBacked(item, t);
      ItemBackedByView(huge, level, item, t, t');
    }
  }

  lemma {:induction false} ItemBackedByView(huge: nat, level: nat, item: Item, t: Table, t': Table)
    requires Valid(level, t) && Valid(level, t') && ItemShape(huge, level, item) && ItemBacked(item, t)
    requires Lo(item) < Hi(level, item)
    requires forall o: nat :: Lo(item) <= o < Hi(level, item) ==>
      SameLeaf(SlotView(level, t, item.index, o), SlotView(level, t', item.index, o))
    ensures ItemBacked(item, t')
    decreases level, 0
  {
    var i := item.index;
    assert SlotValid(level, t, i) && SlotValid(level, t', i);
    assert SameLeaf(SlotView(level, t, i, Lo(item)), SlotView(level, t', i, Lo(item)));
    match item {
      case Page(_, _) =>
        if t'.subs[i].Some? {
          SubView(level, t', i, Lo(item));
          LeafLevelBound(level - 1, t'.subs[i].value, Lo(item));
        }
      case SubTable(_, _, sub) =>
        BackedUsed(huge, level - 1, sub, t.subs[i].value, StartAddr(sub));
        SubView(level, t, i, StartAddr(sub));
        LeafLevelBound(level - 1, t.subs[i].value, StartAddr(sub));
        assert t'.subs[i].Some?;
        forall o: nat | Covers(sub, o)
          ensures SameLeaf(ViewAt(level - 1, t.subs[i].value, o), ViewAt(level - 1, t'.subs[i].value, o))
        {
          SubView(level, t, i, o);
          SubView(level, t', i, o);
        }
        BackedByView(huge, level - 1, sub, t.subs[i].value, t'.subs[i].value);
    }
  }

  lemma ItemCovers(huge: nat, level: nat, a: Alloc, k: nat, o: nat)
    requires Shape(huge, level, a) && k < |a.items| && Lo(a.items[k]) <= o < Hi(level, a.items[k])
    ensures var v := a.items[k].index * PageSize(level) + o;
            Covers(a, v) && v / PageSize(level) == a.items[k].index && v % PageSize(level) == o
  {
    ShapeBounds(huge, level, a);
    SlotOffset(a.items[k].index, o, PageSize(level));
    assert a.items[k].index == a.items[0].index + k;
    hide PageSize, Lo, Hi, StartAddr, EndAddr;
    CoversBySlot(huge, level, a, a.items[k].index, o);
  }

  /** Every address of a backed allocation is in use, by an entry of the allocator itself. */
  lemma {:induction false} BackedUsed(huge: nat, level: nat, a: Alloc, t: Table, v: nat)
    requires Valid(level, t) && Shape(huge, level, a) && Backed(a, t) && Covers(a, v)
    ensures ViewAt(level, t, v).Used? && ViewAt(level, t, v).mapping != Shared
    decreases level
  {
    CoversAddr(huge, level, a, v);
    var i, o := v / PageSize(level), v % PageSize(level);
    var item := a.items[i - a.items[0].index];
    assert item.index == i;
    assert ItemBacked(item, t) && ItemShape(huge, level, item);
    hide Shape, PageSize, StartAddr, EndAddr, Valid;
    if item.SubTable? {
      SubView(level, t, i, o);
      SlotSub(level, t, i);
      BackedUsed(huge, level - 1, item.alloc, t.subs[i].value, o);
    }
  }

  lemma SlotSub(level: nat, t: Table, i: nat)
    requires Valid(level, t) && i < NPAGES && t.subs[i].Some?
    ensures level > 1 && t.entries[i].Link? && Valid(level - 1, t.subs[i].value)
  {
    assert SlotValid(level, t, i);
  }
}
