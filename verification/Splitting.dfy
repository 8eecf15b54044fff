/** Breaking a huge page into a sub-table, and splitting an allocation in two. */
module Splitting {
  import opened Options
  import opened Layout
  import opened Entries
  import opened Availability
  import opened PageTables
  import opened Allocations
  import opened Slots
  import opened Trimming
  import opened CodeMeaning
  import opened Strategies
  import opened Staging
  import opened Releasing
  import opened FirstFit
  import opened PageMapping

  ghost predicate IsMapped(mapping: Mapping)
  {
    mapping.Phys? || mapping.OtherType? || mapping.Malformed?
  }

  /** The frame address that was written for a page, plus the offset in the page. */
  ghost function Written(mapping: Mapping): nat
    requires IsMapped(mapping)
  {
    match mapping
    case OtherType(addr, _) => addr + MIN_PAGE_SIZE
    case _ => mapping.addr
  }

  /** Same absent data, same flags, same written address, and where that is aligned the same translation; only
      the level that decides may be lower. What a misaligned address means at that level, `Reading` says. */
  ghost predicate SameMeaning(view: View, view': View)
  {
    && (view.Used? <==> view'.Used?)
    && (view.Used? ==>
          && view'.level <= view.level && (view'.level == view.level ==> view' == view)
          && (!IsMapped(view.mapping) || view.mapping.Phys? ==> view'.mapping == view.mapping)
          && (IsMapped(view.mapping) ==>
                && IsMapped(view'.mapping) && view'.mapping.flags == view.mapping.flags
                && Written(view'.mapping) == Written(view.mapping)))
  }

  /** What an address translates to depends on the written address and the deciding level alone. */
  lemma {:induction false} Reading(level: nat, t: Table, v: nat)
    requires Valid(level, t)
    ensures var view := ViewAt(level, t, v);
            view.Used? && IsMapped(view.mapping) ==>
              && 1 <= view.level <= level
              && view.mapping == ReadAt(view.level, Written(view.mapping), v, view.mapping.flags)
    decreases level
  {
    hide PageSize, Below, Get;
    var i, o := v / PageSize(level), v % PageSize(level);
    DivBounds(v, PageSize(level));
    if i < NPAGES {
      assert SlotValid(level, t, i);
      match t.subs[i] {
        case None =>
          if t.entries[i].Mapped? {
            AlignedWithin(t.entries[i].addr, o, PageSize(level));
          }
        case Some(s) =>
          Reading(level - 1, s, o);
          SubView(level, t, i, o);
          var view := ViewAt(level - 1, s, o);
          if view.Used? && IsMapped(view.mapping) {
            SameRemainder(level, view.level, i, o);
          }
      }
    }
  }

  // ---- Breaking a huge page ----

  /** The entry that sub-table slot `i` gets in place of its part of the huge page. */
  function PartEntry(level: nat, e: Entry, i: nat): Entry
    requires level > 1 && i < NPAGES && (e.Absent? || e.Mapped?)
    requires e.Mapped? ==>
      (e.addr + SlotAddr(level - 1, i)) % MIN_PAGE_SIZE == 0 && e.addr + SlotAddr(level - 1, i) < PHYS_LIMIT
  {
    match e
    case Mapped(addr, bits) => HugeEntry(addr + SlotAddr(level - 1, i), DeserFlags(bits))
    case Absent(data) => AbsentEntry(data)
  }

  lemma PartEntryValid(level: nat, e: Entry, i: nat)
    requires level > 1 && i < NPAGES && (e.Absent? || e.Mapped?) && EntryValid(level, e)
    ensures SlotAddr(level - 1, i) % MIN_PAGE_SIZE == 0
    ensures e.Mapped? ==>
      && (e.addr + SlotAddr(level - 1, i)) % MIN_PAGE_SIZE == 0
      && e.addr + SlotAddr(level - 1, i) + PageSize(level - 1) <= PHYS_LIMIT
    ensures var p := PartEntry(level, e, i);
            && (p.Absent? || p.Mapped?) && EntryValid(level - 1, p) && EntryFlags(p) == EntryFlags(e)
            && (e.Mapped? ==>
                  p.Mapped? && p.addr == e.addr + SlotAddr(level - 1, i) && DeserFlags(p.bits) == DeserFlags(e.bits))
            && (e.Absent? ==> p == e)
  {
    SpanBelow(level);
    hide PageSize;
    AlignedSum(i, PageSize(level - 1), 0, MIN_PAGE_SIZE);
    MulStep(i, NPAGES, PageSize(level - 1));
    match e {
      case Mapped(addr, bits) =>
        AlignedPlus(addr, SlotAddr(level - 1, i), MIN_PAGE_SIZE);
        MappedEntry(level - 1, addr + SlotAddr(level - 1, i), DeserFlags(bits));
      case Absent(data) =>
        AbsentRoundTrip(data);
    }
  }

  /** The sub-table `s` shows in its slots the parts of entry `e`. */
  ghost predicate Filled(level: nat, s: Table, e: Entry)
    requires level > 1 && (e.Absent? || e.Mapped?) && EntryValid(level, e)
  {
    && WellSized(s)
    && forall i :: 0 <= i < NPAGES ==>
      PartOf(level, s, e, i)
  }

  ghost predicate PartOf(level: nat, s: Table, e: Entry, i: nat)
    requires level > 1 && (e.Absent? || e.Mapped?) && EntryValid(level, e) && WellSized(s) && i < NPAGES
  {
    PartEntryValid(level, e, i);
    s.subs[i].None? && Get(s.bitmap, i) == FULL && s.entries[i] == PartEntry(level, e, i)
  }

  lemma FilledValid(level: nat, s: Table, e: Entry)
    requires level > 1 && (e.Absent? || e.Mapped?) && EntryValid(level, e) && Filled(level, s, e)
    ensures Valid(level - 1, s) && forall f :: Within(EntryFlags(e), f) ==> Below(s, f)
  {
    hide PageSize, PartEntry, Get;
    forall i | 0 <= i < NPAGES
      ensures SlotValid(level - 1, s, i) && EntryFlags(s.entries[i]) == EntryFlags(e)
    {
      assert PartOf(level, s, e, i);
      PartEntryValid(level, e, i);
    }
  }

  /** Every address of the huge page translates as before. */
  lemma FilledView(level: nat, s: Table, e: Entry, o: nat)
    requires level > 1 && (e.Absent? || e.Mapped?) && EntryValid(level, e) && Filled(level, s, e) && o < PageSize(level)
    ensures SameMeaning(LeafView(level, e, o), ViewAt(level - 1, s, o))
  {
    hide PageSize, PartEntry, Get, CalcFlags, SlotAddr;
    var d := PageSize(level - 1);
    PartPlace(level, o);
    assert PartOf(level, s, e, o / d);
    PartEntryValid(level, e, o / d);
    if e.Mapped? && e.addr % PageSize(level) == 0 {
      PartAligned(level, e.addr, o / d);
    }
  }

  /** Breaking up a page keeps where it translates to: it is aligned, or misaligned in the same way after. */
  ghost predicate KeepsFrame(level: nat, e: Entry)
    requires level > 1
  {
    e.Mapped? ==>
      var x, y := e.addr % PageSize(level), e.addr % PageSize(level - 1);
      x == 0 || (level > 2 && (x == MIN_PAGE_SIZE || (y != 0 && y != MIN_PAGE_SIZE)))
  }

  /** A page translates to the same frames after it is broken up exactly if `KeepsFrame` holds. In
      particular a 2 MiB page with bit 12 set moves by 4 KiB. */
  lemma FilledExactly(level: nat, s: Table, e: Entry, o: nat)
    requires level > 1 && (e.Absent? || e.Mapped?) && EntryValid(level, e) && Filled(level, s, e) && o < PageSize(level)
    ensures ViewAt(level - 1, s, o).Used?
    ensures ViewAt(level - 1, s, o).mapping == LeafView(level, e, o).mapping <==> KeepsFrame(level, e)
  {
    hide PageSize, PartEntry, Get, CalcFlags, SlotAddr;
    var d := PageSize(level - 1);
    PartPlace(level, o);
    assert PartOf(level, s, e, o / d);
    PartEntryValid(level, e, o / d);
    if e.Mapped? {
      PartRemainder(level, e.addr, o / d);
    }
  }

  /** How misaligned the parts of a page are. */
  lemma PartRemainder(level: nat, addr: nat, i: nat)
    requires level > 1 && addr % MIN_PAGE_SIZE == 0
    ensures var x, y := addr % PageSize(level), addr % PageSize(level - 1);
            && (addr + SlotAddr(level - 1, i)) % PageSize(level - 1) == y
            && (x == 0 ==> y == 0)
            && (level == 2 ==> y == 0)
            && (level > 2 && x == MIN_PAGE_SIZE ==> y == MIN_PAGE_SIZE)
  {
    var d := PageSize(level - 1);
    SpanBelow(level);
    OneLevel();
    if level > 2 {
      SpanBelow(level - 1);
    }
    hide PageSize;
    var q, x := Divided(addr, PageSize(level));
    var r, y := Divided(addr, d);
    MulAdd(r, i, d);
    DivUniqueSum(addr + SlotAddr(level - 1, i), d, r + i, y);
    MulAssoc(q, NPAGES, d);
    if x == 0 || (level > 2 && x == MIN_PAGE_SIZE) {
      DivUniqueSum(addr, d, q * NPAGES, x);
    }
  }

  /** Which part of the huge page an offset lies in. */
  lemma PartPlace(level: nat, o: nat)
    requires level > 1 && o < PageSize(level)
    ensures var d := PageSize(level - 1); o / d < NPAGES && SlotAddr(level - 1, o / d) + o % d == o
  {
  }

  lemma PartAligned(level: nat, addr: nat, i: nat)
    requires level > 1 && addr % PageSize(level) == 0
    ensures (addr + SlotAddr(level - 1, i)) % PageSize(level - 1) == 0
  {
    var d := PageSize(level - 1);
    SpanBelow(level);
    hide PageSize;
    var q, _ := Divided(addr, PageSize(level));
    MulAssoc(q, NPAGES, d);
    MulAdd(q * NPAGES, i, d);
    SlotOffset(q * NPAGES + i, 0, d);
  }

  /** Write the parts of `e` over every entry of a sub-table that was allocated as a whole. */
  method FillSubtable(level: nat, s: Table, e: Entry) returns (s': Table)
    requires level > 1 && (e.Absent? || e.Mapped?) && EntryValid(level, e) && WellSized(s)
    requires forall i :: 0 <= i < NPAGES ==> s.subs[i].None? && Get(s.bitmap, i) == FULL
    ensures Filled(level, s', e)
  {
    hide PageSize, PartEntry, Get;
    s' := s;
    for i := 0 to NPAGES
      invariant s'.subs == s.subs && s'.bitmap == s.bitmap && WellSized(s')
      invariant forall j :: 0 <= j < i ==> PartOf(level, s', e, j)
    {
      PartEntryValid(level, e, i);
      ghost var before := s';
      s' := SetEntry(s', i, PartEntry(level, e, i));
      forall j | 0 <= j < i + 1
        ensures PartOf(level, s', e, j)
      {
        if j < i {
          assert before.entries[j] == s'.entries[j];
          assert PartOf(level, before, e, j);
        }
      }
    }
  }

  /** Offset `o` of the page keeps its meaning, and its translation exactly if the frame permits. */
  ghost predicate PageBroken(level: nat, t: Table, t': Table, i: nat, o: nat)
    requires level > 1 && WellSized(t) && i < NPAGES
  {
    var view, view' := SlotView(level, t, i, o), SlotView(level, t', i, o);
    && SameMeaning(view, view')
    && view.Used? && view'.Used? && (view'.mapping == view.mapping <==> KeepsFrame(level, t.entries[i]))
  }

  /** Turn the page in slot `index` into a sub-table of smaller pages with the same meaning.
      Fails exactly when the level has no pages that can be broken or the slot holds none. */
  method SplitPage(huge: nat, level: nat, t: Table, index: nat) returns (t': Table, r: Option<Alloc>)
    requires 1 <= huge && 1 <= level <= 4 && Valid(level, t) && WellSized(t) && index < NPAGES
    requires t.entries[index].Link? ==> t.subs[index].Some?
    ensures r.Some? <==> 2 <= level <= huge && t.subs[index].None? && t.entries[index] != Unused
    ensures r.None? ==> t' == t
    ensures r.Some? ==>
      && Valid(level, t') && NoNewFlags(t, t') && SameExcept(t, t', index)
      && t'.subs[index].Some? && Valid(level - 1, t'.subs[index].value)
      && Shape(huge, level - 1, r.value) && Backed(r.value, t'.subs[index].value)
      && StartAddr(r.value) == 0 && EndAddr(r.value) == PageSize(level)
      && forall o: nat :: o < PageSize(level) ==> PageBroken(level, t, t', index, o)
    ensures StaysTidy(level, t, t') && SameUse(t, t')
  {
    t', r := t, None;
    assert SlotValid(level, t, index);
    if level <= 1 || level > huge {
      return;
    }
    if Get(t.bitmap, index) != FULL {
      return;
    }
    if t.subs[index].Some? {
      return;
    }
    NewTableValid(level - 1);
    SpanBelow(level);
    DefaultFits(level - 1, PageSize(level));
    WholeTable(level - 1);
    hide Valid, SlotValid, Below, SlotView, ViewAt, Shape, Backed, PageSize, Get, FitsFresh, StartAddr;
    hide EndAddr, Taken, NewTable, Remainder;
    hide Trimmed, CodesExact, NumPagesUsed, TableCode, StaysTidy, SameUse;
    // Create a new allocation of the whole sub-table
    var s;
    s, r := Allocate(huge, level - 1, NewTable(), PageSize(level), ALLOCATION_DEFAULT);
    ShapeBounds(huge, level - 1, r.value);
    WholeOfPages(huge, level - 1, s, r.value);
    // Copy the mapping across
    var e := t.entries[index];
    s := FillSubtable(level, s, e);
    // Point to the new sub-table
    t' := SetSub(SetEntry(t, index, SubtableEntry()), index, Some(s));
    t' := RefreshAvailability(t', index);
    var flags := if e.Mapped? then DeserFlags(e.bits) else NO_FLAGS;
    t' := SetEntry(t', index, AddSubtableFlags(false, t'.entries[index], flags));
    Installed(level, t, index, s, e);
    BrokenUp(level, t, t', index, s, e);
    StillBacked(huge, level, s, e, r.value);
    FilledValid(level, s, e);
    BackedIsUsed(huge, level - 1, r.value, s);
    PageTidy(level, t, t', index, s, e);
  }

  lemma PageTidy(level: nat, t: Table, t': Table, i: nat, s: Table, e: Entry)
    requires level > 1 && (e.Absent? || e.Mapped?) && EntryValid(level, e) && Filled(level, s, e)
    requires i < NPAGES && SameExcept(t, t', i) && t.entries[i] == e && t.subs[i].None? && Get(t.bitmap, i) == FULL
    requires t'.subs[i] == Some(s) && t'.entries[i].Link? && Get(t'.bitmap, i) == TableCode(s) && NumPagesUsed(s) > 0
    ensures StaysTidy(level, t, t') && SameUse(t, t')
  {
    hide Get, TableCode, NumPagesUsed, Trimmed, CodesExact;
    FilledTidy(level, s, e);
    TidySub(level, t, t', i, s);
    forall j | 0 <= j < NPAGES
      ensures (t.entries[j].Unused? <==> t'.entries[j].Unused?) && Get(t.bitmap, j) == Get(t'.bitmap, j)
    {
      assert j == i || SameSlot(t, t', j);
    }
  }

  /** A table filled with the parts of a page is full, and looks full to its parent. */
  lemma LeavesTidy(level: nat, s: Table)
    requires WellSized(s)
    requires forall i :: 0 <= i < NPAGES ==>
      s.subs[i].None? && !s.entries[i].Unused? && Get(s.bitmap, i) == FULL
    ensures Tidy(level, s)
  {
    hide Get, NumPagesUsed, TableCode;
    assert Trimmed(level, s);
    assert CodesExact(level, s);
  }

  lemma FilledTidy(level: nat, s: Table, e: Entry)
    requires level > 1 && (e.Absent? || e.Mapped?) && EntryValid(level, e) && Filled(level, s, e)
    ensures Tidy(level - 1, s) && TableCode(s) == FULL
  {
    hide Get, PartEntry, Trimmed, CodesExact;
    forall i | 0 <= i < NPAGES
      ensures s.subs[i].None? && !s.entries[i].Unused? && Get(s.bitmap, i) == FULL
    {
      assert PartOf(level, s, e, i);
      PartEntryValid(level, e, i);
    }
    LeavesTidy(level - 1, s);
    CountAll(s.entries);
    IsFullMeaning(s.bitmap);
  }

  lemma WholeTable(level: nat)
    requires level >= 1
    ensures Remainder(level, Span(level)) == 0 && Span(level) % MIN_PAGE_SIZE == 0
  {
    hide PageSize;
    AlignedSum(NPAGES, PageSize(level), 0, MIN_PAGE_SIZE);
    SlotOffset(NPAGES, 0, PageSize(level));
  }

  /** An allocation of a whole table by pages takes every slot, and every slot as a page. */
  lemma WholeOfPages(huge: nat, level: nat, s: Table, a: Alloc)
    requires Valid(level, s) && Shape(huge, level, a) && Backed(a, s) && OnlyPages(a)
    requires EndAddr(a) == StartAddr(a) + Span(level)
    ensures WellSized(s) && StartAddr(a) == 0
    ensures forall i :: 0 <= i < NPAGES ==> s.subs[i].None? && Get(s.bitmap, i) == FULL
  {
    hide PageSize, StartAddr, EndAddr;
    ShapeBounds(huge, level, a);
    RangeEnds(huge, level, a);
    var first, n, ps := a.items[0].index, |a.items|, PageSize(level);
    assert a.items[0].Page? && a.items[n - 1].Page?;
    if first > 0 {
      MulStep(0, first, ps);
    }
    SlotAddrSucc(level, n - 1);
    if n < NPAGES {
      MulStep(n, NPAGES, ps);
    }
    forall i | 0 <= i < NPAGES
      ensures s.subs[i].None? && Get(s.bitmap, i) == FULL
    {
      assert a.items[i].index == i && a.items[i].Page?;
      assert ItemBacked(a.items[i], s) && SlotValid(level, s, i);
    }
  }

  lemma StillBacked(huge: nat, level: nat, s: Table, e: Entry, a: Alloc)
    requires level > 1 && (e.Absent? || e.Mapped?) && EntryValid(level, e) && Filled(level, s, e)
    requires Shape(huge, level - 1, a) && OnlyPages(a)
    ensures Backed(a, s)
  {
    hide PageSize, Get, PartEntry, StartAddr, EndAddr;
    forall k | 0 <= k < |a.items|
      ensures ItemBacked(a.items[k], s)
    {
      var i := a.items[k].index;
      assert ItemShape(huge, level - 1, a.items[k]) && a.items[k].Page?;
      assert PartOf(level, s, e, i);
      PartEntryValid(level, e, i);
    }
  }

  /** A slot whose page was replaced by a sub-table of its parts. */
  lemma BrokenUp(level: nat, t: Table, t': Table, i: nat, s: Table, e: Entry)
    requires level > 1 && Valid(level, t) && WellSized(t) && i < NPAGES && t.subs[i].None? && t.entries[i] == e
    requires (e.Absent? || e.Mapped?) && EntryValid(level, e) && Filled(level, s, e)
    requires SameExcept(t, t', i) && t'.subs[i] == Some(s) && Get(t'.bitmap, i) != EMPTY
    requires t'.entries[i].Link? && EntryFlags(t'.entries[i]) == EntryFlags(e)
    ensures Valid(level, t') && NoNewFlags(t, t') && Valid(level - 1, s)
    ensures forall o: nat :: o < PageSize(level) ==> PageBroken(level, t, t', i, o)
  {
    hide PageSize, Filled, Get;
    FilledValid(level, s, e);
    assert SlotValid(level, t', i);
    OneSlot(level, t, t', i);
    assert NoNewFlags(t, t') by {
      forall f | Below(t, f)
        ensures Below(t', f)
      {
        assert e.Mapped? ==> Grants(t, i);
      }
    }
    forall o: nat | o < PageSize(level)
      ensures PageBroken(level, t, t', i, o)
    {
      FilledView(level, s, e, o);
      FilledExactly(level, s, e, o);
      SubView(level, t', i, o);
      PageView(level, t, i, o);
    }
  }

  /** The steps that install the sub-table change one slot, and its entry grants what the page did. */
  lemma Installed(level: nat, t: Table, i: nat, s: Table, e: Entry)
    requires WellSized(t) && i < NPAGES && (e.Absent? || e.Mapped?)
    ensures var t1 := RefreshAvailability(SetSub(SetEntry(t, i, SubtableEntry()), i, Some(s)), i);
            var flags := if e.Mapped? then DeserFlags(e.bits) else NO_FLAGS;
            && WellSized(t1) && t1.entries[i].Link?
            && var t' := SetEntry(t1, i, AddSubtableFlags(false, t1.entries[i], flags));
               && SameExcept(t, t', i) && t'.subs[i] == Some(s) && Get(t'.bitmap, i) == TableCode(s)
               && t'.entries[i].Link? && EntryFlags(t'.entries[i]) == EntryFlags(e)
  {
    var t0 := SetSub(SetEntry(t, i, SubtableEntry()), i, Some(s));
    Refreshed(t0, i);
    hide Get;
    var t1 := RefreshAvailability(t0, i);
    var flags := if e.Mapped? then DeserFlags(e.bits) else NO_FLAGS;
    var t' := SetEntry(t1, i, AddSubtableFlags(false, t1.entries[i], flags));
    forall j | 0 <= j < NPAGES && j != i
      ensures SameSlot(t, t', j)
    {
      assert SameSlot(t0, t1, j);
    }
  }

  // ---- Splitting an allocation ----

  /** Addresses of `a` keep their meaning, all others their view. */
  ghost predicate MeaningKept(level: nat, t: Table, t': Table, a: Alloc)
  {
    forall v: nat ::
      if Covers(a, v) then SameMeaning(ViewAt(level, t, v), ViewAt(level, t', v))
      else ViewAt(level, t', v) == ViewAt(level, t, v)
  }

  /** Two allocations that share out the range of `a` at `mid`. */
  ghost predicate Halves(huge: nat, level: nat, t: Table, a: Alloc, mid: nat, left: Alloc, right: Alloc)
  {
    && Shape(huge, level, left) && Shape(huge, level, right) && Backed(left, t) && Backed(right, t)
    && StartAddr(left) == StartAddr(a) && EndAddr(left) == StartAddr(a) + mid
    && StartAddr(right) == StartAddr(a) + mid && EndAddr(right) == EndAddr(a)
  }

  function Rebased(items: seq<Item>, d: nat): (r: seq<Item>)
    requires forall k :: 0 <= k < |items| ==> d <= items[k].offset
    ensures |r| == |items|
  {
    seq(|items|, k requires 0 <= k < |items| => items[k].(offset := items[k].offset - d))
  }

  /** What became of the slot that holds the midpoint. */
  ghost predicate PivotSplit(huge: nat, level: nat, t: Table, t': Table, item: Item, size: nat, left: Alloc,
                             right: Alloc)
  {
    && level > 1 && item.index < NPAGES && Valid(level, t') && NoNewFlags(t, t') && SameExcept(t, t', item.index)
    && t'.subs[item.index].Some?
    && Shape(huge, level - 1, left) && Backed(left, t'.subs[item.index].value)
    && Shape(huge, level - 1, right) && Backed(right, t'.subs[item.index].value)
    && StartAddr(left) == Lo(item) && EndAddr(left) == Lo(item) + size
    && StartAddr(right) == Lo(item) + size && EndAddr(right) == Hi(level, item)
    && SlotMeaning(level, t, t', item)
  }

  ghost predicate SlotMeaning(level: nat, t: Table, t': Table, item: Item)
  {
    forall o: nat :: o < PageSize(level) ==>
      if Lo(item) <= o < Hi(level, item)
      then SameMeaning(SlotView(level, t, item.index, o), SlotView(level, t', item.index, o))
      else SlotView(level, t', item.index, o) == SlotView(level, t, item.index, o)
  }

  /** Split the item that has the midpoint inside, `size` bytes after its start. */
  method SplitPivot(huge: nat, level: nat, t: Table, item: Item, size: nat)
    returns (t': Table, left: Alloc, right: Alloc)
    requires 1 <= huge && 1 <= level <= 4 && Valid(level, t) && WellSized(t) && ItemShape(huge, level, item)
    requires ItemBacked(item, t)
    requires Lo(item) < Hi(level, item) <= PageSize(level) && 0 < size < Hi(level, item) - Lo(item)
    requires size % MIN_PAGE_SIZE == 0
    ensures PivotSplit(huge, level, t, t', item, size, left, right)
    ensures StaysTidy(level, t, t') && SameUse(t, t')
    decreases level, 0
  {
    hide Valid, SlotValid, Below, SlotView, ViewAt, Shape, Backed, PageSize, Get, StartAddr, EndAddr, Trimmed;
    hide CodesExact, NumPagesUsed;
    var i := item.index;
    PivotLevel(level, item, size);
    var t1, sub := t, Alloc([], 0);
    match item {
      case SubTable(_, _, inner) =>
        // It is a table, so it can be split by recursing
        sub := inner;
        SlotSub(level, t, i);
        MeaningRefl(level, t, i);
      case Page(_, _) =>
        // Break the page, then split the newly created table
        var r;
        t1, r := SplitPage(huge, level, t, i);
        assert r.Some?;
        forall o: nat | o < PageSize(level)
          ensures SameMeaning(SlotView(level, t, i, o), SlotView(level, t1, i, o))
        {
          assert PageBroken(level, t, t1, i, o);
        }
        sub := r.value;
    }
    var s;
    s, left, right := SplitAlloc(huge, level - 1, t1.subs[i].value, sub, size);
    t' := SetSub(t1, i, Some(s));
    PivotPlaced(huge, level, t, t1, item, sub, s, size, left, right);
    TidyInside(level, t1, i, s);
  }

  /** At level 1 there is no page-aligned midpoint inside an item. */
  lemma PivotLevel(level: nat, item: Item, size: nat)
    requires level >= 1 && 0 < size < Hi(level, item) - Lo(item) && size % MIN_PAGE_SIZE == 0
    requires item.SubTable? ==> level > 1
    ensures level > 1
  {
  }

  lemma MeaningRefl(level: nat, t: Table, i: nat)
    ensures forall o: nat :: SameMeaning(SlotView(level, t, i, o), SlotView(level, t, i, o))
  {
  }

  lemma PivotPlaced(huge: nat, level: nat, t: Table, t1: Table, item: Item, sub: Alloc, s: Table, size: nat,
                    left: Alloc, right: Alloc)
    requires level > 1 && item.index < NPAGES && WellSized(t) && Valid(level, t1) && WellSized(t1) && NoNewFlags(t, t1)
    requires SameExcept(t, t1, item.index) && t1.subs[item.index].Some?
    requires Shape(huge, level - 1, sub) && StartAddr(sub) == Lo(item)
    requires EndAddr(sub) == Hi(level, item) <= PageSize(level)
    requires forall o: nat :: o < PageSize(level) ==>
      SameMeaning(SlotView(level, t, item.index, o), SlotView(level, t1, item.index, o))
    requires item.SubTable? ==> t1 == t
    requires item.Page? ==> Hi(level, item) == PageSize(level) && Lo(item) == 0
    requires Valid(level - 1, s) && NoNewFlags(t1.subs[item.index].value, s)
    requires Halves(huge, level - 1, s, sub, size, left, right)
    requires MeaningKept(level - 1, t1.subs[item.index].value, s, sub)
    ensures PivotSplit(huge, level, t, SetSub(t1, item.index, Some(s)), item, size, left, right)
  {
    hide Valid, SlotValid, Below, SlotView, ViewAt, Shape, Backed, PageSize, Get, StartAddr, EndAddr, Lo, Hi;
    hide SameMeaning;
    var i := item.index;
    var t' := SetSub(t1, i, Some(s));
    SlotSubCode(level, t1, i);
    SubOfView(level, t1, i);
    SubReplaced(level, t1, i, s, t');
    forall j | 0 <= j < NPAGES && j != i
      ensures SameSlot(t, t', j)
    {
      assert SameSlot(t, t1, j);
    }
    forall o: nat | o < PageSize(level)
      ensures if Lo(item) <= o < Hi(level, item) then SameMeaning(SlotView(level, t, i, o), SlotView(level, t', i, o))
              else SlotView(level, t', i, o) == SlotView(level, t, i, o)
    {
      assert Covers(sub, o) <==> Lo(item) <= o < Hi(level, item);
      assert SlotView(level, t', i, o) == ViewAt(level - 1, s, o);
      if Covers(sub, o) {
        MeaningTrans(SlotView(level, t, i, o), SlotView(level, t1, i, o), SlotView(level, t', i, o));
      }
    }
  }

  lemma MeaningTrans(x: View, y: View, z: View)
    requires SameMeaning(x, y) && SameMeaning(y, z)
    ensures SameMeaning(x, z)
  {
  }

  method SplitAlloc(huge: nat, level: nat, t: Table, a: Alloc, mid: nat) returns (t': Table, left: Alloc, right: Alloc)
    requires 1 <= huge && 1 <= level <= 4 && Valid(level, t) && Shape(huge, level, a) && Backed(a, t)
    requires 0 < mid && StartAddr(a) + mid < EndAddr(a) && mid % MIN_PAGE_SIZE == 0
    ensures Valid(level, t') && NoNewFlags(t, t')
    ensures Halves(huge, level, t', a, mid, left, right) && MeaningKept(level, t, t', a)
    ensures StaysTidy(level, t, t') && SameUse(t, t')
    decreases level, 1
  {
    hide Valid, SlotValid, Below, SlotView, ViewAt, Shape, Backed, PageSize, Get, StartAddr, EndAddr;
    hide ItemShape, ItemBacked, Lo, Hi;
    hide PivotSplit, Halves, MeaningKept, SplitState, Trimmed, CodesExact;
    Sized(level, t);
    NonEmpty(huge, level, a);
    var lhs, rhs := [], [];
    var entries := a.items;
    t' := t;
    ghost var k, cut := 0, NoCut;
    SplitStart(huge, level, t, a, mid);
    while entries != []
      invariant k + |entries| == |a.items| && entries == a.items[k..]
      invariant SplitState(huge, level, t, t', a, mid, cut, k, lhs, rhs)
      invariant StaysTidy(level, t, t') && SameUse(t, t')
      decreases |entries|
    {
      var item := entries[0];
      entries := entries[1..];
      if item.offset < mid {
        SplitLow(huge, level, t, t', a, mid, cut, k, lhs, rhs);
        if entries == [] || entries[0].offset > mid {
          // The midpoint is inside this item
          PivotReady(huge, level, t, a, mid, k);
          var lhsSize := mid - item.offset;
          var l, r;
          t', l, r := SplitPivot(huge, level, t, item, lhsSize);
          cut := Pivot(k, l, r);
          SplitAtPivot(huge, level, t, t', a, mid, k, lhs, l, r);
          lhs := lhs + [SubTable(item.index, item.offset, l)];
          rhs := rhs + [SubTable(item.index, item.offset + lhsSize, r)];
        } else {
          SplitLeft(huge, level, t, a, mid, k, lhs, rhs);
          lhs := lhs + [item];
        }
      } else {
        SplitRight(huge, level, t, t', a, mid, cut, k, lhs, rhs);
        cut := if cut.NoCut? then Boundary(k) else cut;
        rhs := rhs + [item];
      }
      k := k + 1;
    }
    // Make the offsets on the right relative to the right part
    SplitEnd(huge, level, t, t', a, mid, cut, lhs, rhs);
    rhs := Rebased(rhs, rhs[0].offset);
    left, right := Alloc(lhs, PageSize(level)), Alloc(rhs, PageSize(level));
  }

  /** Where the midpoint turned out to be: on the boundary before item `p`, or inside it. */
  datatype Cut = NoCut | Boundary(p: nat) | Pivot(p: nat, left: Alloc, right: Alloc)

  /** The first `k` items have been shared out. */
  ghost predicate SplitState(huge: nat, level: nat, t: Table, t': Table, a: Alloc, mid: nat, cut: Cut, k: nat,
                             lhs: seq<Item>, rhs: seq<Item>)
  {
    var items := a.items;
    && k <= |items|
    && match cut
      case NoCut =>
        t' == t && k < |items| && lhs == items[..k] && rhs == [] && items[k].offset <= mid
      case Boundary(p) =>
        t' == t && 0 < p < k && items[p].offset == mid && lhs == items[..p] && rhs == items[p..k]
      case Pivot(p, l, r) =>
        && p < k && items[p].offset < mid && (p + 1 < |items| ==> mid < items[p + 1].offset)
        && PivotSplit(huge, level, t, t', items[p], mid - items[p].offset, l, r)
        && lhs == items[..p] + [SubTable(items[p].index, items[p].offset, l)]
        && rhs == [SubTable(items[p].index, mid, r)] + items[p + 1..k]
  }

  lemma SplitStart(huge: nat, level: nat, t: Table, a: Alloc, mid: nat)
    requires Shape(huge, level, a)
    ensures SplitState(huge, level, t, t, a, mid, NoCut, 0, [], [])
  {
  }

  lemma SplitLow(huge: nat, level: nat, t: Table, t': Table, a: Alloc, mid: nat, cut: Cut, k: nat, lhs: seq<Item>,
                 rhs: seq<Item>)
    requires Shape(huge, level, a) && k < |a.items| && a.items[k].offset < mid
    requires SplitState(huge, level, t, t', a, mid, cut, k, lhs, rhs)
    ensures cut == NoCut && t' == t && rhs == [] && lhs == a.items[..k]
  {
    hide PageSize, Shape, PivotSplit;
    OffsetsSorted(huge, level, a);
  }

  lemma PivotReady(huge: nat, level: nat, t: Table, a: Alloc, mid: nat, k: nat)
    requires Shape(huge, level, a) && Backed(a, t) && k < |a.items| && a.items[k].offset < mid
    requires mid % MIN_PAGE_SIZE == 0
    requires StartAddr(a) + mid < EndAddr(a)
    requires k + 1 < |a.items| ==> mid < a.items[k + 1].offset
    ensures var item, size := a.items[k], mid - a.items[k].offset;
            && WellSized(t) && ItemShape(huge, level, item) && ItemBacked(item, t)
            && Lo(item) < Hi(level, item) <= PageSize(level)
            && 0 < size < Hi(level, item) - Lo(item) && size % MIN_PAGE_SIZE == 0
  {
    hide PageSize;
    ItemInRange(huge, level, a, t, k);
    ShapeBounds(huge, level, a);
    ItemFits(huge, level, a, k);
    ItemOffset(huge, level, a, k);
    RangeEnds(huge, level, a);
    AlignedDifference(mid, a.items[k].offset, MIN_PAGE_SIZE);
    hide StartAddr, EndAddr, ItemShape, ItemBacked, Lo, Hi;
  }

  lemma SplitAtPivot(huge: nat, level: nat, t: Table, t': Table, a: Alloc, mid: nat, k: nat, lhs: seq<Item>, l: Alloc,
                     r: Alloc)
    requires k < |a.items| && a.items[k].offset < mid && (k + 1 < |a.items| ==> mid < a.items[k + 1].offset)
    requires lhs == a.items[..k] && PivotSplit(huge, level, t, t', a.items[k], mid - a.items[k].offset, l, r)
    ensures var item := a.items[k];
            SplitState(huge, level, t, t', a, mid, Pivot(k, l, r), k + 1,
                       lhs + [SubTable(item.index, item.offset, l)],
                       [] + [SubTable(item.index, item.offset + (mid - item.offset), r)])
  {
  }

  lemma SplitLeft(huge: nat, level: nat, t: Table, a: Alloc, mid: nat, k: nat, lhs: seq<Item>, rhs: seq<Item>)
    requires k + 1 < |a.items| && a.items[k].offset < mid && a.items[k + 1].offset <= mid
    requires lhs == a.items[..k] && rhs == []
    ensures SplitState(huge, level, t, t, a, mid, NoCut, k + 1, lhs + [a.items[k]], rhs)
  {
  }

  lemma SplitRight(huge: nat, level: nat, t: Table, t': Table, a: Alloc, mid: nat, cut: Cut, k: nat, lhs: seq<Item>,
                   rhs: seq<Item>)
    requires Shape(huge, level, a) && k < |a.items| && mid <= a.items[k].offset && 0 < mid
    requires SplitState(huge, level, t, t', a, mid, cut, k, lhs, rhs)
    ensures SplitState(huge, level, t, t', a, mid,
                       if cut.NoCut? then Boundary(k) else cut, k + 1, lhs, rhs + [a.items[k]])
  {
    hide PageSize, PivotSplit;
  }

  /** When all items are shared out, the two parts are the two halves. */
  lemma SplitEnd(huge: nat, level: nat, t: Table, t': Table, a: Alloc, mid: nat, cut: Cut, lhs: seq<Item>,
                 rhs: seq<Item>)
    requires Valid(level, t) && Shape(huge, level, a) && Backed(a, t) && 0 < mid
    requires SplitState(huge, level, t, t', a, mid, cut, |a.items|, lhs, rhs)
    ensures rhs != [] && forall m :: 0 <= m < |rhs| ==> rhs[0].offset <= rhs[m].offset
    ensures Valid(level, t') && NoNewFlags(t, t')
    ensures var left, right := Alloc(lhs, PageSize(level)), Alloc(Rebased(rhs, rhs[0].offset), PageSize(level));
            Halves(huge, level, t', a, mid, left, right) && MeaningKept(level, t, t', a)
  {
    hide PageSize, StartAddr, EndAddr, Shape, Backed, Valid, PivotSplit, Halves, MeaningKept, NoNewFlags, Rebased;
    NonEmpty(huge, level, a);
    OffsetsSorted(huge, level, a);
    var p, items := cut.p, a.items;
    var rest := items[p + 1..];
    assert items[..|items|] == items && items[p + 1..|items|] == rest && items[p..|items|] == [items[p]] + rest;
    forall k | 0 <= k < |rest|
      ensures mid <= rest[k].offset
    {
      assert rest[k] == items[p + 1 + k];
    }
    if cut.Boundary? {
      assert rhs == [items[p]] + rest;
      RebasedCons(items[p], rest, mid);
      BoundaryHalves(huge, level, t, a, mid, p);
      SameFlags(t);
    } else {
      assert rhs == [SubTable(items[p].index, mid, cut.right)] + rest;
      RebasedCons(SubTable(items[p].index, mid, cut.right), rest, mid);
      PivotHalves(huge, level, t, t', a, mid, p, cut.left, cut.right);
    }
  }

  lemma SameFlags(t: Table)
    ensures NoNewFlags(t, t)
  {
  }

  lemma RebasedCons(item: Item, rest: seq<Item>, d: nat)
    requires d <= item.offset && forall k :: 0 <= k < |rest| ==> d <= rest[k].offset
    ensures forall k :: 0 <= k < |[item] + rest| ==> d <= ([item] + rest)[k].offset
    ensures Rebased([item] + rest, d) == [item.(offset := item.offset - d)] + Rebased(rest, d)
  {
  }

  /** The items before `p` and a last item that starts like item `p`. */
  lemma PrefixShape(huge: nat, level: nat, a: Alloc, p: nat, last: Item)
    requires Shape(huge, level, a) && p < |a.items| && ItemShape(huge, level, last)
    requires last.index == a.items[p].index && last.offset == a.items[p].offset && Lo(last) == Lo(a.items[p])
    ensures var b := Alloc(a.items[..p] + [last], PageSize(level));
            && Shape(huge, level, b)
            && StartAddr(b) == StartAddr(a) && EndAddr(b) == SlotAddr(level, last.index) + Hi(level, last)
  {
    hide Shape, ItemShape, PageSize, StartAddr, EndAddr, Lo, Hi, SlotAddr;
    var b := Alloc(a.items[..p] + [last], PageSize(level));
    PrefixItems(huge, level, a, p, last);
    Ends(huge, level, a);
    Ends(huge, level, b);
    assert p > 0 ==> b.items[0] == a.items[0];
  }

  lemma PrefixItems(huge: nat, level: nat, a: Alloc, p: nat, last: Item)
    requires Shape(huge, level, a) && p < |a.items| && ItemShape(huge, level, last)
    requires last.index == a.items[p].index && last.offset == a.items[p].offset && Lo(last) == Lo(a.items[p])
    ensures Shape(huge, level, Alloc(a.items[..p] + [last], PageSize(level)))
  {
    hide PageSize, StartAddr, EndAddr;
    var items := a.items[..p] + [last];
    forall k | 0 <= k < |items|
      ensures ItemShape(huge, level, items[k]) && items[k].index == items[0].index + k
      ensures k > 0 ==> Lo(items[k]) == 0
      ensures k < |items| - 1 ==> Hi(level, items[k]) == PageSize(level)
      ensures k > 0 ==> items[k].offset == items[k - 1].offset + Hi(level, items[k - 1]) - Lo(items[k - 1])
    {
      assert items[k].index == a.items[k].index && items[k].offset == a.items[k].offset;
      assert Lo(items[k]) == Lo(a.items[k]);
      assert k < p ==> items[k] == a.items[k];
      assert k > 0 ==> items[k - 1] == a.items[k - 1];
    }
    hide ItemShape, Lo, Hi;
  }

  /** A first item that ends like item `p`, and the items after it, moved to start at offset 0. */
  lemma SuffixShape(huge: nat, level: nat, a: Alloc, p: nat, first: Item, d: nat)
    requires Shape(huge, level, a) && p < |a.items| && ItemShape(huge, level, first)
    requires first.index == a.items[p].index && first.offset == 0 && Hi(level, first) == Hi(level, a.items[p])
    requires a.items[p].offset + Lo(first) == d + Lo(a.items[p])
    requires forall m :: p < m < |a.items| ==> d <= a.items[m].offset
    ensures var b := Alloc([first] + Rebased(a.items[p + 1..], d), PageSize(level));
            && Shape(huge, level, b)
            && StartAddr(b) == SlotAddr(level, first.index) + Lo(first) && EndAddr(b) == EndAddr(a)
  {
    hide Shape, ItemShape, PageSize, StartAddr, EndAddr, Lo, Hi, SlotAddr;
    var b := Alloc([first] + Rebased(a.items[p + 1..], d), PageSize(level));
    SuffixItems(huge, level, a, p, first, d);
    SuffixItem(huge, level, a, p, first, d, |a.items| - 1 - p);
    Ends(huge, level, a);
    Ends(huge, level, b);
  }

  lemma SuffixItems(huge: nat, level: nat, a: Alloc, p: nat, first: Item, d: nat)
    requires Shape(huge, level, a) && p < |a.items| && ItemShape(huge, level, first)
    requires first.index == a.items[p].index && first.offset == 0 && Hi(level, first) == Hi(level, a.items[p])
    requires a.items[p].offset + Lo(first) == d + Lo(a.items[p])
    requires forall m :: p < m < |a.items| ==> d <= a.items[m].offset
    ensures Shape(huge, level, Alloc([first] + Rebased(a.items[p + 1..], d), PageSize(level)))
  {
    hide PageSize, StartAddr, EndAddr;
    var items := [first] + Rebased(a.items[p + 1..], d);
    forall k | 0 <= k < |items|
      ensures ItemShape(huge, level, items[k]) && items[k].index == items[0].index + k
      ensures k > 0 ==> Lo(items[k]) == 0
      ensures k < |items| - 1 ==> Hi(level, items[k]) == PageSize(level)
      ensures k > 0 ==> items[k].offset == items[k - 1].offset + Hi(level, items[k - 1]) - Lo(items[k - 1])
    {
      SuffixItem(huge, level, a, p, first, d, k);
      if k > 0 {
        SuffixItem(huge, level, a, p, first, d, k - 1);
      }
    }
    hide ItemShape, Lo, Hi, Rebased;
  }

  lemma SuffixItem(huge: nat, level: nat, a: Alloc, p: nat, first: Item, d: nat, k: nat)
    requires Shape(huge, level, a) && p + k < |a.items| && ItemShape(huge, level, first)
    requires first.index == a.items[p].index && first.offset == 0 && Hi(level, first) == Hi(level, a.items[p])
    requires a.items[p].offset + Lo(first) == d + Lo(a.items[p])
    requires forall m :: p < m < |a.items| ==> d <= a.items[m].offset
    ensures var item, was := ([first] + Rebased(a.items[p + 1..], d))[k], a.items[p + k];
            && ItemShape(huge, level, item) && item.index == was.index && Hi(level, item) == Hi(level, was)
            && (k > 0 ==> Lo(item) == 0 && item.offset == was.offset - d)
            && item.offset - Lo(item) == was.offset - d - Lo(was)
  {
  }

  /** Where an item starts: its offset from the start, and where the item before it ends. */
  lemma ItemStart(huge: nat, level: nat, a: Alloc, k: nat)
    requires Shape(huge, level, a) && k < |a.items|
    ensures ItemShape(huge, level, a.items[k])
    ensures SlotAddr(level, a.items[k].index) + Lo(a.items[k]) == a.items[k].offset + StartAddr(a)
    ensures k > 0 ==>
      SlotAddr(level, a.items[k - 1].index) + Hi(level, a.items[k - 1]) == a.items[k].offset + StartAddr(a)
  {
    hide PageSize, StartAddr, EndAddr, Lo, Hi;
    ItemOffset(huge, level, a, k);
    if k > 0 {
      ItemsAdjoin(huge, level, a, k);
    }
  }

  /** The two lists of items describe the two ranges. */
  ghost predicate Cuts(huge: nat, level: nat, a: Alloc, mid: nat, left: Alloc, right: Alloc)
  {
    && Shape(huge, level, left) && Shape(huge, level, right)
    && StartAddr(left) == StartAddr(a) && EndAddr(left) == StartAddr(a) + mid
    && StartAddr(right) == StartAddr(a) + mid && EndAddr(right) == EndAddr(a)
  }

  lemma BoundaryCuts(huge: nat, level: nat, a: Alloc, mid: nat, p: nat)
    requires Shape(huge, level, a) && 0 < p < |a.items| && a.items[p].offset == mid
    requires forall m :: p < m < |a.items| ==> mid <= a.items[m].offset
    ensures var left := Alloc(a.items[..p], PageSize(level));
            var right := Alloc([a.items[p].(offset := 0)] + Rebased(a.items[p + 1..], mid), PageSize(level));
            Cuts(huge, level, a, mid, left, right)
  {
    hide Shape, PageSize, StartAddr, EndAddr, SlotAddr, Rebased;
    var first := a.items[p].(offset := 0);
    ItemStart(huge, level, a, p);
    ItemStart(huge, level, a, p - 1);
    assert ItemShape(huge, level, first) && Lo(first) == Lo(a.items[p]) && Hi(level, first) == Hi(level, a.items[p]);
    hide Lo, Hi, ItemShape;
    assert a.items[..p] == a.items[..p - 1] + [a.items[p - 1]];
    PrefixShape(huge, level, a, p - 1, a.items[p - 1]);
    SuffixShape(huge, level, a, p, first, mid);
  }

  lemma BoundaryHalves(huge: nat, level: nat, t: Table, a: Alloc, mid: nat, p: nat)
    requires Shape(huge, level, a) && Backed(a, t) && 0 < p < |a.items| && a.items[p].offset == mid
    requires forall m :: p < m < |a.items| ==> mid <= a.items[m].offset
    ensures var left := Alloc(a.items[..p], PageSize(level));
            var right := Alloc([a.items[p].(offset := 0)] + Rebased(a.items[p + 1..], mid), PageSize(level));
            Halves(huge, level, t, a, mid, left, right) && MeaningKept(level, t, t, a)
  {
    hide Shape, PageSize, StartAddr, EndAddr, ViewAt;
    var left, right := a.items[..p], [a.items[p].(offset := 0)] + Rebased(a.items[p + 1..], mid);
    BoundaryCuts(huge, level, a, mid, p);
    assert ItemBacked(a.items[p], t) && forall k :: 0 <= k < |a.items| ==> ItemBacked(a.items[k], t);
    HalvesBacked(a, t, t, p, left, right, mid);
    hide Backed;
  }

  /** Items on either side stay backed as long as their slots do not change. */
  lemma HalvesBacked(a: Alloc, t: Table, t': Table, p: nat, lhs: seq<Item>, rhs: seq<Item>, d: nat)
    requires Backed(a, t) && WellSized(t') && p < |a.items| && |lhs| <= p + 1 && |rhs| == |a.items| - p
    requires forall k :: 0 <= k < |lhs| && k < p ==> lhs[k] == a.items[k]
    requires forall k :: 0 < k < |rhs| ==>
      d <= a.items[p + k].offset && rhs[k] == a.items[p + k].(offset := a.items[p + k].offset - d)
    requires forall k :: 0 <= k < |a.items| && k != p ==> a.items[k].index < NPAGES && SameSlot(t, t', a.items[k].index)
    requires |lhs| == p + 1 ==> ItemBacked(lhs[p], t')
    requires ItemBacked(rhs[0], t')
    ensures forall size :: Backed(Alloc(lhs, size), t') && Backed(Alloc(rhs, size), t')
  {
  }

  lemma PivotCuts(huge: nat, level: nat, a: Alloc, mid: nat, p: nat, l: Alloc, r: Alloc)
    requires level > 1 && Shape(huge, level, a) && p < |a.items| && a.items[p].offset < mid
    requires forall m :: p < m < |a.items| ==> mid <= a.items[m].offset
    requires Shape(huge, level - 1, l) && Shape(huge, level - 1, r)
    requires StartAddr(l) == Lo(a.items[p]) && EndAddr(l) == Lo(a.items[p]) + mid - a.items[p].offset == StartAddr(r)
    requires EndAddr(r) == Hi(level, a.items[p])
    ensures var left := Alloc(a.items[..p] + [SubTable(a.items[p].index, a.items[p].offset, l)], PageSize(level));
            var right := Alloc([SubTable(a.items[p].index, 0, r)] + Rebased(a.items[p + 1..], mid), PageSize(level));
            Cuts(huge, level, a, mid, left, right)
  {
    hide Shape, PageSize, StartAddr, EndAddr, SlotAddr, Rebased;
    var last, first := SubTable(a.items[p].index, a.items[p].offset, l), SubTable(a.items[p].index, 0, r);
    ItemStart(huge, level, a, p);
    PrefixShape(huge, level, a, p, last);
    SuffixShape(huge, level, a, p, first, mid);
  }

  lemma PivotHalves(huge: nat, level: nat, t: Table, t': Table, a: Alloc, mid: nat, p: nat, l: Alloc, r: Alloc)
    requires Valid(level, t) && Shape(huge, level, a) && Backed(a, t) && p < |a.items| && a.items[p].offset < mid
    requires forall m :: p < m < |a.items| ==> mid <= a.items[m].offset
    requires PivotSplit(huge, level, t, t', a.items[p], mid - a.items[p].offset, l, r)
    ensures Valid(level, t') && NoNewFlags(t, t')
    ensures var left := Alloc(a.items[..p] + [SubTable(a.items[p].index, a.items[p].offset, l)], PageSize(level));
            var right := Alloc([SubTable(a.items[p].index, 0, r)] + Rebased(a.items[p + 1..], mid), PageSize(level));
            Halves(huge, level, t', a, mid, left, right) && MeaningKept(level, t, t', a)
  {
    hide Shape, PageSize, StartAddr, EndAddr, Lo, Hi, Valid, Get, SlotMeaning, MeaningKept;
    Sized(level, t);
    Sized(level, t');
    var item := a.items[p];
    var left := a.items[..p] + [SubTable(item.index, item.offset, l)];
    var right := [SubTable(item.index, 0, r)] + Rebased(a.items[p + 1..], mid);
    PivotCuts(huge, level, a, mid, p, l, r);
    OtherSlots(huge, level, t, t', a, p);
    HalvesBacked(a, t, t', p, left, right, mid);
    PivotMeaning(huge, level, t, t', a, p);
    hide Backed;
  }

  lemma OtherSlots(huge: nat, level: nat, t: Table, t': Table, a: Alloc, p: nat)
    requires WellSized(t) && WellSized(t') && Shape(huge, level, a) && p < |a.items|
    requires a.items[p].index < NPAGES && SameExcept(t, t', a.items[p].index)
    ensures forall k :: 0 <= k < |a.items| && k != p ==> a.items[k].index < NPAGES && SameSlot(t, t', a.items[k].index)
  {
  }

  lemma PivotMeaning(huge: nat, level: nat, t: Table, t': Table, a: Alloc, p: nat)
    requires Shape(huge, level, a) && p < |a.items| && a.items[p].index < NPAGES
    requires SameExcept(t, t', a.items[p].index) && SlotMeaning(level, t, t', a.items[p])
    ensures MeaningKept(level, t, t', a)
  {
    hide PageSize, SlotView, Get, StartAddr, EndAddr, Shape, Lo, Hi;
    NonEmpty(huge, level, a);
    forall v: nat
      ensures if Covers(a, v) then SameMeaning(ViewAt(level, t, v), ViewAt(level, t', v))
              else ViewAt(level, t', v) == ViewAt(level, t, v)
    {
      CoversAddr(huge, level, a, v);
      SlotOutside(level, t, v);
      SlotOutside(level, t', v);
      var i := v / PageSize(level);
      IndexOf(huge, level, a, p, p);
      if i < NPAGES && i != a.items[p].index {
        assert SameSlot(t, t', i);
        SameSlotView(level, t, t', i);
      }
    }
  }
}
