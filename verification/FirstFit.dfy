/** The multi-level first-fit allocator: searching, allocating with leading and trailing remainders, and
    giving back.
    `huge` is the highest level whose entries may map pages (2, or 3 with 1 GiB pages). */
module FirstFit {
  import opened Options
  import opened Layout
  import opened Entries
  import opened Availability
  import opened PageTables
  import opened Allocations
  import opened Slots
  import opened Strategies
  import opened Assembly
  import opened AddressParts
  import opened Staging
  import opened Releasing
  import opened Trimming
  import opened CodeMeaning
  import opened Granting
  import opened Leftovers
  import opened OnePage
  import opened Finding
  import opened Overlaps

  /** Allocate the whole slots [start, end), all of them empty by their codes. */
  method AllocContiguous(huge: nat, level: nat, t: Table, start: nat, end: nat) returns (t': Table, items: seq<Item>)
    requires 1 <= huge && 1 <= level <= 4 && WellSized(t) && (Valid(level, t) || level <= huge)
    requires start <= end <= NPAGES
    requires forall i :: start <= i < end ==> Get(t.bitmap, i) == EMPTY
    ensures Valid(level, t) ==>
      && Valid(level, t') && NoNewFlags(t, t') && StaysTidy(level, t, t')
      && MiddleTaken(huge, level, t, t', items, start, end)
    ensures level <= huge ==> RunReserved(t, t', start, end) && items == PageItems(level, start, end - start)
    decreases level, 1
  {
    SlotAddrSucc(level, 0);
    hide Valid, SlotValid, Below, SlotView, ViewAt, PageSize, Get, SlotAddr, WholeItem, Trimmed;
    hide SlotReserved, PageItems;
    t', items := t, [];
    assert PageItems(level, start, 0) == [];
    for idx := start to end
      invariant WellSized(t') && forall j :: idx <= j < end ==> SameSlot(t, t', j)
      invariant Valid(level, t) ==>
        && Valid(level, t') && NoNewFlags(t, t') && StaysTidy(level, t, t')
        && MiddleTaken(huge, level, t, t', items, start, idx)
      invariant level <= huge ==> RunReserved(t, t', start, idx) && items == PageItems(level, start, idx - start)
    {
      assert SameSlot(t, t', idx);
      ghost var before := t';
      var item;
      t', item := AllocWhole(huge, level, t', idx, SlotAddr(level, idx - start));
      if Valid(level, t) {
        MiddleExtended(huge, level, t, before, t', items, item, start, idx);
      }
      if level <= huge {
        RunExtended(level, t, before, t', start, idx);
      }
      items := items + [item];
      forall j | idx + 1 <= j < end
        ensures SameSlot(t, t', j)
      {
        assert SameSlot(t, before, j) && SameSlot(before, t', j);
      }
    }
  }

  lemma WholePage(huge: nat, level: nat, t: Table, t': Table, idx: nat, offset: nat)
    requires 1 <= level <= 4 && level <= huge && Valid(level, t) && WellSized(t)
    requires idx < NPAGES && Get(t.bitmap, idx) == EMPTY
    requires t' == RefreshAvailability(SetEntry(t, idx, AbsentEntry(RESERVED)), idx)
    ensures Valid(level, t') && NoNewFlags(t, t') && StaysTidy(level, t, t')
    ensures forall o: nat :: o < PageSize(level) ==> IsReserved(SlotView(level, t', idx, o))
    ensures WholeItem(huge, level, t', Page(idx, offset))
  {
    hide Valid, SlotValid, Below, SlotView, ViewAt, Shape, Backed, PageSize, Get, AvailabilityOf;
    hide Trimmed, CodesExact, NumPagesUsed, TableCode;
    EmptySlotView(level, t, idx, 0);
    EntryReplaced(level, t, idx, AbsentEntry(RESERVED));
    TidyPlain(level, t, t', idx);
    assert forall o: nat :: IsReserved(LeafView(level, AbsentEntry(RESERVED), o));
  }

  /** Allocate one slot that is empty by its code, as a page where the level has them, as a filled sub-table
      otherwise. */
  method AllocWhole(huge: nat, level: nat, t: Table, idx: nat, offset: nat) returns (t': Table, item: Item)
    requires 1 <= huge && 1 <= level <= 4 && WellSized(t) && (Valid(level, t) || level <= huge)
    requires idx < NPAGES && Get(t.bitmap, idx) == EMPTY
    ensures SameExcept(t, t', idx)
    ensures Valid(level, t) ==>
      && Valid(level, t') && NoNewFlags(t, t') && StaysTidy(level, t, t')
      && (forall o: nat :: o < PageSize(level) ==> IsReserved(SlotView(level, t', idx, o)))
      && WholeItem(huge, level, t', item) && item.index == idx && item.offset == offset
    ensures level <= huge ==> SlotReserved(t, t', idx) && item == Page(idx, offset)
    decreases level, 0
  {
    hide Valid, SlotValid, Below, SlotView, ViewAt, Shape, Backed, PageSize, Get, AvailabilityOf, FitsFresh;
    hide Trimmed, CodesExact, NumPagesUsed, TableCode, SlotReserved;
    if level <= huge {
      t' := RefreshAvailability(SetEntry(t, idx, AbsentEntry(RESERVED)), idx);
      item := Page(idx, offset);
      ReservedHere(t, idx);
      if Valid(level, t) {
        WholePage(huge, level, t, t', idx, offset);
      }
    } else {
      EmptySlotView(level, t, idx, 0);
      SubOfView(level, t, idx);
      NewTableValid(level - 1);
      SpanBelow(level);
      DefaultFits(level - 1, PageSize(level));
      FitsWindows(level - 1, PageSize(level), ALLOCATION_DEFAULT);
      var s, r := Allocate(huge, level - 1, GetSubtableAlways(t, idx).subs[idx].value, PageSize(level),
                           ALLOCATION_DEFAULT);
      assert r.Some?;  // a fresh sub-table always has room for itself
      item := SubTable(idx, offset, r.value);
      ShapeBounds(huge, level - 1, r.value);
      t' := WithSub(t, idx, s);
      WithSubValid(level, t, idx, s);
      SubTakenHere(huge, level, t, t', idx, NewTable(), s, r.value);
      BackedIsUsed(huge, level - 1, r.value, s);
      TidySub(level, t, t', idx, s);
    }
  }

  /** Allocate [innerOffset, innerOffset + size) inside slot `idx`. */
  method AllocRem(huge: nat, level: nat, t: Table, idx: nat, innerOffset: nat, size: nat)
    returns (t': Table, r: Option<Alloc>)
    requires 1 <= huge && 2 <= level <= 4 && Valid(level, t)
    requires size > 0 && size % MIN_PAGE_SIZE == 0 && innerOffset % MIN_PAGE_SIZE == 0
    requires innerOffset + size <= PageSize(level)
    ensures Valid(level, t') && NoNewFlags(t, t')
    ensures r.Some? <==> RemGranted(level, t, idx, innerOffset, size)
    ensures r.None? ==>
      && SameView(level, t, t')
      && (RemSite(level, t, idx, innerOffset, size).None? ==> t' == t)
      && RefusedTidy(level, t, t', RemSite(level, t, idx, innerOffset, size))
    ensures r.Some? ==> SubTaken(huge, level, t, t', idx, r.value, innerOffset, innerOffset + size)
    ensures r.Some? ==> RemKept(level, t, t', idx) && StaysTidy(level, t, t')
    ensures idx < NPAGES && Get(t.bitmap, idx) == EMPTY ==> r.Some?
    decreases level, 0
  {
    hide Valid, SlotValid, Below, SlotView, ViewAt, Shape, Backed, PageSize, Get, CropAddr, SetSub, WithSub;
    hide Trimmed, CodesExact, NumPagesUsed, TableCode, Granted, UndoSite, LeavesTable, LeavesCode, CodeWith;
    Sized(level, t);
    UnchangedTidy(level, t);
    t', r := t, None;
    if idx < NPAGES && Get(t.bitmap, idx) <= Required(level, size) {
      EnterableBelow(level, t, idx);
      SubOfView(level, t, idx);
      SpanBelow(level);
      SpanFitsVmem(level - 1);
      MainAreaFits(level - 1, innerOffset, size);
      ghost var sub := SubOf(t, idx);
      var s;
      s, r := AllocateAt(huge, level - 1, GetSubtableAlways(t, idx).subs[idx].value, innerOffset, size);
      if r.Some? {
        t' := WithSub(t, idx, s);
        WithSubValid(level, t, idx, s);
        SubTakenHere(huge, level, t, t', idx, sub, s, r.value);
        BackedIsUsed(huge, level - 1, r.value, s);
        TidySub(level, t, t', idx, s);
      } else {
        t' := SetSub(t, idx, Some(s));
        SubKept(level, t, idx, s);
        SameSub(t, idx);
        RemSiteLevel(level, t, idx, innerOffset, size);
        RefusedInside(level, t, idx, s, UndoSite(level - 1, sub, innerOffset, size));
      }
    }
  }

  /** Allocate `size` bytes somewhere inside slot `idx`. */
  method AllocInside(huge: nat, level: nat, t: Table, idx: nat, size: nat, strategies: seq<Strategy>)
    returns (t': Table, r: Option<Alloc>)
    requires 1 <= huge && 2 <= level <= 4
    requires size > 0 && size % MIN_PAGE_SIZE == 0
    requires |strategies| > 0 && Windows(level - 1, size, NextLevelDown(strategies))
    requires if FitsFresh(level - 1, size, NextLevelDown(strategies)) then SubsValid(level, t) else Loose(level, t)
    ensures Valid(level, t) ==>
      (Valid(level, t') <==> !InsideLitters(level, t, idx, size, NextLevelDown(strategies)))
    ensures Valid(level, t) && Valid(level, t') ==> NoNewFlags(t, t') && StaysTidy(level, t, t')
    ensures idx < NPAGES && Valid(level - 1, SubOf(t, idx)) ==>
      (r.Some? <==>
        Get(t.bitmap, idx) < FULL && AllocGranted(level - 1, SubOf(t, idx), size, NextLevelDown(strategies)))
    ensures r.Some? ==>
      && InsideGot(huge, level, t, t', r.value, size, idx)
      && PlacedAt(level - 1, SubOf(t, idx), size, NextLevelDown(strategies), StartAddr(r.value))
      && (Valid(level, t) ==> SubTaken(huge, level, t, t', idx, r.value, StartAddr(r.value), EndAddr(r.value)))
    ensures FitsFresh(level - 1, size, NextLevelDown(strategies)) && r.None? ==>
      t' == t && (idx < NPAGES && Valid(level, t) ==> Get(t.bitmap, idx) != EMPTY)
    ensures !FitsFresh(level - 1, size, NextLevelDown(strategies)) && idx < NPAGES ==>
      r.None? && InsideTried(level, t, t', idx, size, NextLevelDown(strategies))
    ensures r.None? && idx < NPAGES && Plain(level, t, size, strategies) ==>
      SlotExhausted(level, t, idx, NextLevelDown(strategies))
    ensures r.Some? && size == MIN_PAGE_SIZE ==> AdmittedBelow(level, NextLevelDown(strategies), StartAddr(r.value))
    decreases level, 0
  {
    hide Valid, SlotValid, Below, SlotView, ViewAt, Shape, Backed, PageSize, Get, FitsFresh, Windows, Loose, Litters;
    hide Trimmed, CodesExact, NumPagesUsed, TableCode, InsideTried, Exhausted, SlotExhausted, AllocGranted, PlacedAt;
    t', r := t, None;
    if idx < NPAGES && Get(t.bitmap, idx) < FULL {
      ghost var below := NextLevelDown(strategies);
      if FitsFresh(level - 1, size, below) {
        SubOfSound(level, t, idx);
      } else {
        SubLoose(level, t, idx);
      }
      ghost var sub := SubOf(t, idx);
      if Valid(level, t) {
        EnterableBelow(level, t, idx);
        SubOfView(level, t, idx);
      }
      if Plain(level, t, size, strategies) {
        PlainBelow(level, t, idx, size, strategies);
      }
      var s;
      s, r := Allocate(huge, level - 1, GetSubtableAlways(t, idx).subs[idx].value, size, NextLevelDown(strategies));
      if r.Some? {
        t' := WithSub(t, idx, s);
        WithSubFrame(t, idx, s);
        if Valid(level, t) {
          WithSubValid(level, t, idx, s);
          SubTakenHere(huge, level, t, t', idx, sub, s, r.value);
          BackedIsUsed(huge, level - 1, r.value, s);
          TidySub(level, t, t', idx, s);
        }
      } else {
        t' := Entered(t, idx, s);
        if Plain(level, t, size, strategies) {
          SubExhausted(level, t, idx, sub, below);
        }
        if FitsFresh(level - 1, size, below) {
          FitsNoLitter(level - 1, sub, size, below);
          SameSub(t, idx);
        } else {
          InsideRefused(level, t, idx, s, size, below);
          if Valid(level, t) {
            InsideValid(level, t, t', idx, size, below);
          }
        }
      }
    } else if idx < NPAGES {
      if !FitsFresh(level - 1, size, NextLevelDown(strategies)) {
        InsideFull(level, t, idx, size, NextLevelDown(strategies));
      }
      if Plain(level, t, size, strategies) {
        FullExhausted(level, t, idx, NextLevelDown(strategies));
      }
    }
  }

  /** Allocate the leading remainder, the whole slots and the trailing remainder, or nothing. */
  method AllocateParts(huge: nat, level: nat, t: Table, start: nat, end: nat, at: nat, lead: nat, remainder: nat)
    returns (t': Table, r: Option<Alloc>)
    requires 1 <= huge && 1 <= level <= 4 && WellSized(t)
    requires Valid(level, t) || (level <= huge && at == 0 && remainder == 0)
    requires PartsOk(level, start, end, at, lead, remainder) && ScanStops(t, start, end)
    ensures r.Some? <==> PartsGranted(level, t, start, end, at, lead, remainder)
    ensures Valid(level, t) ==> Valid(level, t') && NoNewFlags(t, t')
    ensures Valid(level, t) && r.None? ==>
      && SameView(level, t, t')
      && (PartsSite(level, t, start, end, at, lead, remainder).None? ==> t' == t)
      && RefusedTidy(level, t, t', PartsSite(level, t, start, end, at, lead, remainder))
    ensures Valid(level, t) && r.Some? ==>
      && Shape(huge, level, r.value) && Backed(r.value, t') && Taken(level, t, t', r.value)
      && StartAddr(r.value) == (if at != 0 then SlotAddr(level, start - 1) + at else SlotAddr(level, start))
      && EndAddr(r.value) == (if remainder != 0 then SlotAddr(level, end) + remainder
                              else if start < end then SlotAddr(level, end)
                              else SlotAddr(level, start - 1) + at + lead)
      && (at == 0 && remainder == 0 && level <= huge ==> OnlyPages(r.value))
    ensures Clear(t, if at != 0 then start - 1 else start, PartSlots(start, end, at, remainder)) ==> r.Some?
    ensures Valid(level, t) && r.Some? ==> StaysTidy(level, t, t')
    ensures level <= huge && at == 0 && remainder == 0 ==>
      if r.Some? then PagesGot(level, t, t', r.value, start, end - start) else t' == t
    decreases level, 3
  {
    hide Valid, SlotValid, Below, SlotView, ViewAt, Shape, Backed, PageSize, Get, WholeItems, Taken, SlotAddr;
    hide SlotTaken;
    hide StartAddr, EndAddr, Trimmed, CodesExact, RemGranted, RemSite, LeavesTable, LeavesCode, CodeWith, RemKept;
    hide PagesGot;
    UnchangedTidy(level, t);
    // Check that the main area is clear
    t', r := t, None;
    for i := start to end
      invariant start < i ==> i <= NPAGES
      invariant forall j :: start <= j < i ==> Get(t.bitmap, j) == EMPTY
    {
      if Get(t.bitmap, i) != EMPTY {
        return;
      }
    }
    // Allocate the trailing remainder
    var remAlloc: Option<Alloc> := None;
    if remainder != 0 {
      NoUndoAtStart(level, t, end, remainder);
      t', remAlloc := AllocRem(huge, level, t, end, 0, remainder);
      if remAlloc.None? {
        return;
      }
    }
    var t1 := t';
    // Allocate the leading remainder
    var startAlloc: Option<Alloc> := None;
    if at != 0 {
      assert SameSlot(t, t1, start - 1);
      RemSame(level, t, t1, start - 1, at, lead);
      t', startAlloc := AllocRem(huge, level, t1, start - 1, at, lead);
      if startAlloc.None? {
        if start < end || remainder != 0 {
          NoUndoInRem(level, t1, start - 1, at, lead);
        }
        // Give back the trailing remainder
        if remAlloc.Some? {
          t' := UndoRem(huge, level, t, t', end, remAlloc.value);
        }
        return;
      }
    }
    var t2 := t';
    // Allocate the whole slots in between
    t', r := AllocateMiddle(huge, level, t, t1, t2, start, end, remAlloc, startAlloc, lead);
  }

  /** The last step: the whole slots between the remainders, and the allocation made of all of them. */
  method AllocateMiddle(huge: nat, level: nat, ghost t: Table, ghost t1: Table, t2: Table, start: nat, end: nat,
                        ea: Option<Alloc>, sa: Option<Alloc>, lead: nat)
    returns (t': Table, r: Option<Alloc>)
    requires 1 <= huge && 1 <= level <= 4 && WellSized(t)
    requires if Valid(level, t) then Valid(level, t2) && NoNewFlags(t, t2) else level <= huge && ea.None? && sa.None?
    requires start <= end <= NPAGES && forall i :: start <= i < end ==> Get(t.bitmap, i) == EMPTY
    requires (ea.None? ==> t1 == t) && (sa.None? ==> t2 == t1)
    requires ea.Some? ==> SubTaken(huge, level, t, t1, end, ea.value, 0, EndAddr(ea.value))
    requires sa.Some? ==>
      start > 0 && SubTaken(huge, level, t1, t2, start - 1, sa.value, StartAddr(sa.value), EndAddr(sa.value))
    requires sa.Some? ==> StartAddr(sa.value) + lead == EndAddr(sa.value)
    requires sa.Some? && (start < end || ea.Some?) ==> EndAddr(sa.value) == PageSize(level)
    requires start < end || ea.Some? || sa.Some?
    ensures r.Some?
    ensures Valid(level, t) ==>
      && Valid(level, t') && NoNewFlags(t, t') && StaysTidy(level, t2, t')
      && Shape(huge, level, r.value) && Backed(r.value, t') && Taken(level, t, t', r.value)
      && StartAddr(r.value) == (if sa.Some? then SlotAddr(level, start - 1) + StartAddr(sa.value)
                                else SlotAddr(level, start))
      && EndAddr(r.value) == (if ea.Some? then SlotAddr(level, end) + EndAddr(ea.value)
                              else if start < end then SlotAddr(level, end)
                              else SlotAddr(level, start - 1) + EndAddr(sa.value))
    ensures ea.None? && sa.None? && level <= huge ==>
      OnlyPages(r.value) && PagesGot(level, t, t', r.value, start, end - start)
    decreases level, 2
  {
    hide Valid, SlotValid, Below, SlotView, ViewAt, Shape, Backed, PageSize, Get, MiddleTaken, MiddleOffset, Taken;
    hide StartAddr, EndAddr, SubTaken, Gathered, Rems, SlotAddr, Trimmed, CodesExact;
    hide RunReserved, PageItems;
    if Valid(level, t) {
      StillEmpty(huge, level, t, t1, t2, start, end, ea, sa);
    }
    var whole;
    t', whole := AllocContiguous(huge, level, t2, start, end);
    var offset := SlotAddr(level, end - start);
    var a := BuildAllocation(level, whole, Rems(ea, end, offset, sa, start, if sa.Some? then lead else 0));
    r := Some(a);
    if Valid(level, t) {
      MiddleSize(huge, level, t2, t', whole, start, end);
      assert Steps(huge, level, t, t1, t2, t', ea, sa, whole, start, end);
      hide Steps;
      BuiltFromSteps(huge, level, t, t1, t2, t', ea, sa, whole, start, end, offset, a);
    }
    if ea.None? && sa.None? && level <= huge {
      MiddlePages(level, t, t', start, end, offset, a);
    }
  }

  /** Allocate [address, address + size): either exactly that range or nothing at all. */
  method AllocateAt(huge: nat, level: nat, t: Table, address: nat, size: nat) returns (t': Table, r: Option<Alloc>)
    requires 1 <= huge && 1 <= level <= 4 && Valid(level, t)
    requires size > 0 && size % MIN_PAGE_SIZE == 0 && address % MIN_PAGE_SIZE == 0
    requires ScanStops(t, StartIdx(level, CropAddr(address)), EndIdx(level, CropAddr(address), size))
    ensures Valid(level, t') && NoNewFlags(t, t')
    ensures r.Some? <==> Granted(level, t, CropAddr(address), size)
    ensures r.None? ==>
      && SameView(level, t, t')
      && (UndoSite(level, t, CropAddr(address), size).None? ==> t' == t)
      && RefusedTidy(level, t, t', UndoSite(level, t, CropAddr(address), size))
    ensures r.Some? ==> Allocated(huge, level, t, t', r.value, size) && StartAddr(r.value) == CropAddr(address)
    ensures CropAddr(address) + size <= Span(level) && ClearRange(level, t, CropAddr(address), size) ==> r.Some?
    ensures t == NewTable() && CropAddr(address) + size <= Span(level) ==> r.Some?
    ensures r.Some? ==> StaysTidy(level, t, t')
    decreases level, 4
  {
    hide Valid, SlotValid, Below, SlotView, ViewAt, Shape, Backed, PageSize, Get, NewTable, CropAddr, Taken;
    hide StartRemAt, StartIdx, StartRemSize, MainSize, Pages, Remainder, SlotAddr, Clear, Trimmed, CodesExact;
    hide PartsGranted, PartsSite, LeavesTable, LeavesCode, CodeWith;
    Sized(level, t);
    var addr := CropAddr(address);
    CropAligned(address);
    AddrParts(level, addr, size);
    AddrEnd(level, addr, size);
    if t == NewTable() {
      NewTableValid(level);
    }
    if addr + size <= Span(level) && ClearRange(level, t, addr, size) {
      ClearParts(level, t, addr, size);
    }
    WholePages(level, MainSize(level, addr, size));
    var main := MainSize(level, addr, size);
    var start := StartIdx(level, addr);
    var end := start + Pages(level, main);
    t', r := AllocateParts(huge, level, t, start, end, StartRemAt(level, addr), StartRemSize(level, addr, size),
                           Remainder(level, main));
  }

  /** Roll back a trailing remainder: the sub-table stays, with its bitmap code as it was. */
  method UndoRem(huge: nat, level: nat, ghost t: Table, t1: Table, idx: nat, a: Alloc) returns (t': Table)
    requires level > 1 && Valid(level, t) && Valid(level, t1) && NoNewFlags(t, t1)
    requires SubTaken(huge, level, t, t1, idx, a, 0, EndAddr(a)) && RemKept(level, t, t1, idx)
    ensures Valid(level, t') && NoNewFlags(t, t') && SameView(level, t, t')
    ensures RefusedTidy(level, t, t', Some(Site(level, t, idx, EndAddr(a))))
    decreases level, 1
  {
    hide Valid, SlotValid, Below, SlotView, ViewAt, Shape, Backed, PageSize, Get, StartAddr, EndAddr;
    hide Trimmed, CodesExact, NumPagesUsed, TableCode, SubTaken, LeavesCode, CodeWith, UsedIn, UsedWith;
    UndoReady(huge, level, t, t1, idx, a);
    var s := Deallocate(huge, level - 1, t1.subs[idx].value, a);
    t' := SetSub(t1, idx, Some(s));
    SubReleased(huge, level, t, t1, t1, idx, a, s);
    UndoneUse(huge, level, t, t1, idx, a, s);
    UndoneKept(level, t, t1, idx, s, EndAddr(a));
  }

  /** Give back an allocation: its addresses are free again and nothing else changes. */
  method Deallocate(ghost huge: nat, level: nat, t: Table, a: Alloc) returns (t': Table)
    requires Valid(level, t) && Shape(huge, level, a) && Backed(a, t)
    ensures Valid(level, t') && NoNewFlags(t, t') && Released(level, t, t', a)
    ensures StaysTidy(level, t, t')
    decreases level, 1
  {
    hide Valid, SlotValid, Below, SlotView, ViewAt, PageSize, Get, StartAddr, EndAddr, ItemShape, ItemBacked;
    hide Lo, Hi, Trimmed, CodesExact;
    Sized(level, t);
    t' := t;
    ghost var first := a.items[0].index;
    for k := 0 to |a.items|
      invariant Valid(level, t') && NoNewFlags(t, t') && WellSized(t')
      invariant forall j :: 0 <= j < NPAGES && !(first <= j < first + k) ==> SameSlot(t, t', j)
      invariant forall m :: 0 <= m < k ==> ItemReleased(level, t, t', a.items[m])
      invariant StaysTidy(level, t, t')
    {
      ghost var before := t';
      ItemInRange(huge, level, a, t, k);
      ItemBackedFrame(a.items[k], t, t');
      t' := DeallocateItem(huge, level, t', a.items[k]);
      forall j | 0 <= j < NPAGES && !(first <= j < first + k + 1)
        ensures SameSlot(t, t', j)
      {
        assert SameSlot(t, before, j) && SameSlot(before, t', j);
      }
      forall m | 0 <= m < k + 1
        ensures ItemReleased(level, t, t', a.items[m])
      {
        ItemInRange(huge, level, a, t, m);
        if m < k {
          ReleasedFrame(level, t, t, before, t', a.items[m]);
        } else {
          ReleasedFrame(level, t, before, t', t', a.items[k]);
        }
      }
    }
    AllReleased(huge, level, t, t', a);
  }

  method DeallocateItem(ghost huge: nat, level: nat, t: Table, item: Item) returns (t': Table)
    requires Valid(level, t) && WellSized(t) && ItemShape(huge, level, item) && ItemBacked(item, t)
    ensures Valid(level, t') && NoNewFlags(t, t') && SameExcept(t, t', item.index)
    ensures ItemReleased(level, t, t', item)
    ensures StaysTidy(level, t, t')
    decreases level, 0
  {
    hide Valid, SlotValid, Below, SlotView, ViewAt, Shape, PageSize, Get, StartAddr, EndAddr, Trimmed, CodesExact;
    hide TableCode;
    var i := item.index;
    match item
    case Page(_, _) =>
      // clear the page
      EntryReplaced(level, t, i, Unused);
      t' := RefreshAvailability(SetEntry(t, i, Unused), i);
      TidyPlain(level, t, t', i);
    case SubTable(_, _, sub) =>
      SlotSub(level, t, i);
      SlotSubCode(level, t, i);
      SubOfView(level, t, i);
      var s := Deallocate(huge, level - 1, t.subs[i].value, sub);
      // delete the sub-allocator if it is empty
      if NumPagesUsed(s) == 0 {
        EmptySubView(level - 1, s);
        t' := RefreshAvailability(SetSub(SetEntry(t, i, Unused), i, None), i);
        SubDeleted(level, t, i);
        TidyPlain(level, t, t', i);
      } else {
        t' := WithSub(t, i, s);
        WithSubValid(level, t, i, s);
        TidySub(level, t, t', i, s);
      }
      forall o: nat | o < PageSize(level)
        ensures SlotView(level, t', i, o) == if Lo(item) <= o < Hi(level, item) then Free else SlotView(level, t, i, o)
      {
        assert ViewAt(level - 1, s, o) == if Covers(sub, o) then Free else ViewAt(level - 1, t.subs[i].value, o);
      }
  }

  /** A request for less than a page is only put into a completely empty slot. */
  predicate Spreads(level: nat, size: nat, strategy: Strategy)
  {
    strategy.spreadMode && PassedDown(level, size)
  }

  /** An allocation made from slot `offset` on of a valid table. */
  ghost predicate GotValid(huge: nat, level: nat, t: Table, t': Table, a: Alloc, size: nat, strategies: seq<Strategy>,
                           offset: nat)
    requires |strategies| > 0
  {
    && Valid(level, t') && NoNewFlags(t, t') && StaysTidy(level, t, t')
    && Allocated(huge, level, t, t', a, size)
    && (Spreads(level, size, strategies[0]) ==> Clear(t, offset, SearchPages(level, size)))
    && (Remainder(level, size) == 0 && level <= huge ==> OnlyPages(a))
    && SlotAddr(level, offset) <= StartAddr(a) && EndAddr(a) <= SlotAddr(level, offset + SearchPages(level, size))
    && (size == MIN_PAGE_SIZE ==> Admitted(level, strategies, StartAddr(a)))
    && LeadsTo(level, t, size, strategies, offset, StartAddr(a))
  }

  /** An allocation made from slot `offset` on. */
  ghost predicate GotAt(huge: nat, level: nat, t: Table, t': Table, a: Alloc, size: nat, strategies: seq<Strategy>,
                        offset: nat)
    requires |strategies| > 0
  {
    && OffsetGranted(level, t, size, strategies, offset)
    && (Valid(level, t) ==> GotValid(huge, level, t, t', a, size, strategies, offset))
    && (Direct(huge, level, size, strategies) ==> CrudeGot(huge, level, t, t', a, size, offset))
  }

  /** The tables on which a request may be made: valid ones, and such as a hopeless request leaves, if the
      request is hopeless too or direct. */
  ghost predicate Usable(huge: nat, level: nat, t: Table, size: nat, strategies: seq<Strategy>)
  {
    || Valid(level, t)
    || (if Hopeless(level, size, strategies) then Loose(level, t)
        else SubsValid(level, t) && Direct(huge, level, size, strategies))
  }

  /** What one attempt achieves, if the request is not hopeless. */
  ghost predicate Tried(huge: nat, level: nat, t: Table, t': Table, r: Option<Alloc>, size: nat,
                        strategies: seq<Strategy>, offset: nat)
    requires |strategies| > 0
  {
    if r.Some? then GotAt(huge, level, t, t', r.value, size, strategies, offset)
    else t' == t && InVain(level, t, size, strategies, offset)
  }

  /** Try to allocate from slot `offset` on. */
  method TryOffset(huge: nat, level: nat, t: Table, size: nat, strategies: seq<Strategy>, offset: nat)
    returns (t': Table, r: Option<Alloc>)
    requires 1 <= huge && 1 <= level <= 4
    requires size > 0 && size % MIN_PAGE_SIZE == 0 && Windows(level, size, strategies)
    requires Usable(huge, level, t, size, strategies)
    requires MinPage(strategies[0]) <= offset < MaxPage(level, size, strategies[0])
    ensures !Hopeless(level, size, strategies) ==> Tried(huge, level, t, t', r, size, strategies, offset)
    ensures Hopeless(level, size, strategies) ==> r.None? && SlotTried(level, t, t', offset, size, strategies)
    decreases level, 4
  {
    hide Valid, Shape, Backed, PageSize, SlotAddr, Get, StartAddr, EndAddr, Taken, FitsFresh, Clear, Allocated;
    hide Pages, Remainder, SubTaken, Trimmed, CodesExact, Loose, Litters, InsideTried, PartsGranted;
    hide LeavesTable, LeavesCode, CodeWith, PagesGot, InsideGot, Tried, StaysTidy, NoNewFlags;
    hide Admitted, AdmittedBelow, SlotExhausted, AllocGranted, PlacedAt;
    WholePages(level, size);
    InWindow(level, size, strategies[0]);
    UsableSubs(huge, level, t, size, strategies);
    var pages, remainder := Pages(level, size), Remainder(level, size);
    t', r := t, None;
    if level > 1 && pages < 1 {
      // No whole pages needed: leave it to a sub-allocator
      if strategies[0].spreadMode && Get(t.bitmap, offset) != EMPTY {
        if !Hopeless(level, size, strategies) {
          SpreadInVain(huge, level, t, size, strategies, offset);
        }
        return;
      }
      var inner;
      t', inner := AllocInside(huge, level, t, offset, remainder, strategies);
      if inner.Some? {
        r := Some(Alloc([SubTable(offset, 0, inner.value)], PageSize(level)));
      }
      if !Hopeless(level, size, strategies) {
        SubOfSound(level, t, offset);
        TriedInside(huge, level, t, t', inner, size, strategies, offset);
      }
    } else {
      t', r := AllocateParts(huge, level, t, offset, offset + pages, 0, 0, remainder);
      TriedParts(huge, level, t, t', r, size, strategies, offset);
    }
  }

  lemma UsableSubs(huge: nat, level: nat, t: Table, size: nat, strategies: seq<Strategy>)
    requires Usable(huge, level, t, size, strategies)
    ensures WellSized(t) && (if Hopeless(level, size, strategies) then Loose(level, t) else SubsValid(level, t))
    ensures !Valid(level, t) && !PassedDown(level, size) ==> level <= huge && Remainder(level, size) == 0
  {
    hide Valid, Remainder;
    if Valid(level, t) {
      ValidLoose(level, t);
      ValidSubs(level, t);
    }
  }

  lemma SpreadInVain(huge: nat, level: nat, t: Table, size: nat, strategies: seq<Strategy>, offset: nat)
    requires PassedDown(level, size) && size > 0 && |strategies| > 0 && strategies[0].spreadMode
    requires offset < NPAGES && Get(t.bitmap, offset) != EMPTY && SearchPages(level, size) >= 1
    ensures Tried(huge, level, t, t, None, size, strategies, offset)
  {
    hide Valid, SearchPages, AllocGranted, Get, CodesExact;
    assert !Clear(t, offset, SearchPages(level, size));
  }

  lemma TriedInside(huge: nat, level: nat, t: Table, t': Table, inner: Option<Alloc>, size: nat,
                    strategies: seq<Strategy>, offset: nat)
    requires PassedDown(level, size) && size > 0 && |strategies| > 0 && WellSized(t) && offset < NPAGES
    requires SearchPages(level, size) == 1 && Remainder(level, size) == size
    requires WindowDefined(level, size, strategies[0]) && InSearch(level, size, strategies[0], offset)
    requires strategies[0].spreadMode ==> Get(t.bitmap, offset) == EMPTY
    requires inner.Some? <==>
               && Get(t.bitmap, offset) < FULL
               && AllocGranted(level - 1, SubOf(t, offset), size, NextLevelDown(strategies))
    requires inner.Some? ==>
      && InsideGot(huge, level, t, t', inner.value, size, offset)
      && PlacedAt(level - 1, SubOf(t, offset), size, NextLevelDown(strategies), StartAddr(inner.value))
      && (size == MIN_PAGE_SIZE ==> AdmittedBelow(level, NextLevelDown(strategies), StartAddr(inner.value)))
      && (Valid(level, t) ==>
            && SubTaken(huge, level, t, t', offset, inner.value, StartAddr(inner.value), EndAddr(inner.value))
            && Valid(level, t') && NoNewFlags(t, t') && StaysTidy(level, t, t'))
    requires inner.None? ==>
      && t' == t && (Valid(level, t) ==> Get(t.bitmap, offset) != EMPTY)
      && (Plain(level, t, size, strategies) ==> SlotExhausted(level, t, offset, NextLevelDown(strategies)))
    ensures var r := if inner.Some? then Some(Alloc([SubTable(offset, 0, inner.value)], PageSize(level))) else None;
            Tried(huge, level, t, t', r, size, strategies, offset)
  {
    hide Valid, Shape, Backed, PageSize, SlotAddr, Get, StartAddr, EndAddr, Taken, Remainder, SubTaken, SearchPages;
    hide Trimmed, CodesExact, Admitted, AdmittedBelow, SlotExhausted, AllocGranted, PlacedAt, NoNewFlags, StaysTidy;
    if inner.Some? {
      var a := Alloc([SubTable(offset, 0, inner.value)], PageSize(level));
      if Valid(level, t) {
        InsideTaken(huge, level, t, t', offset, inner.value);
        assert StartAddr(a) - SlotAddr(level, offset) == StartAddr(inner.value);
        if size == MIN_PAGE_SIZE {
          AdmittedAt(level, strategies, offset, StartAddr(inner.value));
        }
      }
    }
  }

  lemma TriedParts(huge: nat, level: nat, t: Table, t': Table, r: Option<Alloc>, size: nat,
                   strategies: seq<Strategy>, offset: nat)
    requires level >= 1 && !PassedDown(level, size) && size > 0 && size % MIN_PAGE_SIZE == 0 && |strategies| > 0
    requires WindowDefined(level, size, strategies[0]) && InSearch(level, size, strategies[0], offset)
    requires offset < NPAGES && WellSized(t)
    requires var pages, remainder := Pages(level, size), Remainder(level, size);
             && (r.Some? <==> PartsGranted(level, t, offset, offset + pages, 0, 0, remainder))
             && (Clear(t, offset, SearchPages(level, size)) ==> r.Some?)
             && (r.None? ==> t' == t)
             && (level <= huge && remainder == 0 && r.Some? ==> PagesGot(level, t, t', r.value, offset, pages))
             && (Valid(level, t) && r.Some? ==>
                   && Valid(level, t') && NoNewFlags(t, t') && StaysTidy(level, t, t')
                   && Shape(huge, level, r.value) && Backed(r.value, t') && Taken(level, t, t', r.value)
                   && StartAddr(r.value) == SlotAddr(level, offset)
                   && EndAddr(r.value) == SlotAddr(level, offset + pages) + remainder
                   && (remainder == 0 && level <= huge ==> OnlyPages(r.value)))
    ensures Tried(huge, level, t, t', r, size, strategies, offset)
  {
    hide Valid, Shape, Backed, PageSize, SlotAddr, Get, StartAddr, EndAddr, Taken, Pages, Remainder, SearchPages, Clear;
    hide Trimmed, CodesExact, Admitted, SlotExhausted, PartsGranted, NoNewFlags, StaysTidy, PagesGot, OnlyPages;
    hide MaxPage;
    PartsRange(level, size, offset);
    WholePages(level, size);
    if size == MIN_PAGE_SIZE && Valid(level, t) {
      LowestLevel(level);
      OnePageHere(t, r, strategies, offset);
    }
  }

  /** The allocation lies in the window at `offset`, and no window that comes earlier in the search is clear. */
  ghost predicate FoundAt(level: nat, t: Table, a: Alloc, size: nat, strategy: Strategy, offset: nat)
    requires WindowDefined(level, size, strategy)
  {
    && MinPage(strategy) <= offset < MaxPage(level, size, strategy)
    && SlotAddr(level, offset) <= StartAddr(a) && EndAddr(a) <= SlotAddr(level, offset + SearchPages(level, size))
    && forall o: nat :: MinPage(strategy) <= o < MaxPage(level, size, strategy) && Earlier(strategy, o, offset) ==>
         !Clear(t, o, SearchPages(level, size))
  }

  /** No window of the search is clear. */
  ghost predicate NoneClear(level: nat, t: Table, size: nat, strategy: Strategy)
    requires WindowDefined(level, size, strategy)
  {
    forall o: nat :: MinPage(strategy) <= o < MaxPage(level, size, strategy) ==> !Clear(t, o, SearchPages(level, size))
  }

  ghost function Window(level: nat, size: nat, strategy: Strategy): set<nat>
    requires WindowDefined(level, size, strategy)
  {
    set i: nat | i < MaxPage(level, size, strategy) && InSearch(level, size, strategy, i)
  }

  /** Try the slots of the window in order, twice in spread mode. */
  method Search(huge: nat, level: nat, t: Table, size: nat, strategies: seq<Strategy>)
    returns (t': Table, r: Option<Alloc>, ghost at: nat)
    requires 1 <= huge && 1 <= level <= 4
    requires size > 0 && size % MIN_PAGE_SIZE == 0 && Windows(level, size, strategies)
    requires MinPage(strategies[0]) < MaxPage(level, size, strategies[0]) ==> Usable(huge, level, t, size, strategies)
    requires Hopeless(level, size, strategies) ==> Loose(level, t)
    ensures r.Some? ==>
      && !Hopeless(level, size, strategies)
      && at in Window(level, size, strategies[0]) && GotAt(huge, level, t, t', r.value, size, strategies, at)
      && forall o: nat :: o in Window(level, size, strategies[0]) && Earlier(strategies[0], o, at) ==>
           InVain(level, t, size, strategies, o)
    ensures r.None? && !Hopeless(level, size, strategies) ==>
      t' == t && forall o: nat :: o in Window(level, size, strategies[0]) ==> InVain(level, t, size, strategies, o)
    ensures r.None? && Hopeless(level, size, strategies) ==>
      Searched(level, t, t', size, strategies, Window(level, size, strategies[0]))
    decreases level, 5
  {
    hide Valid, Loose, Searched, SlotTried, SearchPages, MaxPage, GotAt, InVain, SameView;
    var strategy := strategies[0];
    var min, max := MinPage(strategy), MaxPage(level, size, strategy);
    InWindow(level, size, strategy);
    hide Hopeless;
    ghost var hopeless := Hopeless(level, size, strategies);
    t', r, at := t, None, 0;
    ghost var done: set<nat> := {};
    if hopeless {
      SearchStart(level, t, size, strategies);
    }
    var passes := if strategy.spreadMode then 2 else 1;
    for pass := 0 to passes
      invariant r.None?
      invariant if hopeless then Searched(level, t, t', size, strategies, done) else t' == t
      invariant !hopeless ==> forall o: nat :: o in done ==> InVain(level, t, size, strategies, o)
      invariant done == if pass == 0 then {} else Window(level, size, strategy)
    {
      var tried := 0;
      while min + tried < max
        invariant r.None? && (tried > 0 ==> min + tried <= max)
        invariant if hopeless then Searched(level, t, t', size, strategies, done) else t' == t
        invariant !hopeless ==> forall o: nat :: o in done ==> InVain(level, t, size, strategies, o)
        invariant forall i: nat :: i in done <==>
                    min <= i < max && (pass > 0 || if strategy.reverseOrder then max <= i + tried else i < min + tried)
      {
        var offset := if strategy.reverseOrder then max - 1 - tried else min + tried;
        ghost var before := t';
        SearchLoose(level, t, t', size, strategies, done);
        t', r := TryOffset(huge, level, t', size, strategies, offset);
        at := offset;
        if r.Some? {
          return;
        }
        if hopeless {
          SearchStep(level, t, before, t', offset, size, strategies, done);
        }
        done := done + {offset};
        tried := tried + 1;
      }
      assert done == Window(level, size, strategy);
    }
  }

  /** Allocate `size` bytes in the first place, in search order, that the strategies admit. A request for which
      fresh sub-tables have no room leaves sub-tables behind that the bitmap does not show (`Searched`); on such
      a table it may be made again, in the second pass of spread mode, and so may direct requests. */
  method Allocate(huge: nat, level: nat, t: Table, size: nat, strategies: seq<Strategy>)
    returns (t': Table, r: Option<Alloc>)
    requires 1 <= huge && 1 <= level <= 4
    requires size > 0 && size % MIN_PAGE_SIZE == 0 && Windows(level, size, strategies)
    requires || Valid(level, t)
             || (Loose(level, t) && !FitsFresh(level, size, strategies))
             || (SubsValid(level, t) && Direct(huge, level, size, strategies))
    ensures Valid(level, t) ==> (Valid(level, t') <==> !Litters(level, t, size, strategies))
    ensures Valid(level, t) && Valid(level, t') ==>
      && NoNewFlags(t, t') && StaysTidy(level, t, t')
      && (r.None? ==> t' == t && NoneClear(level, t, size, strategies[0]))
    ensures Valid(level, t) && r.Some? ==>
      && Valid(level, t') && Allocated(huge, level, t, t', r.value, size)
      && PlacedAt(level, t, size, strategies, StartAddr(r.value))
      && (exists offset :: FoundAt(level, t, r.value, size, strategies[0], offset))
      && (Spreads(level, size, strategies[0]) ==> !NoneClear(level, t, size, strategies[0]))
      && (Remainder(level, size) == 0 && level <= huge ==> OnlyPages(r.value))
      && (size == MIN_PAGE_SIZE ==> Admitted(level, strategies, StartAddr(r.value)))
    ensures r.Some? <==> AllocGranted(level, t, size, strategies)
    ensures r.None? ==> SameView(level, t, t') && (Loose(level, t) ==> Loose(level, t'))
    ensures FitsFresh(level, size, strategies) && t == NewTable() ==> r.Some?
    ensures !FitsFresh(level, size, strategies) ==> r.None?
    ensures Plain(level, t, size, strategies) ==> (r.None? <==> Exhausted(level, t, strategies))
    ensures Hopeless(level, size, strategies) ==>
      Searched(level, t, t', size, strategies, Window(level, size, strategies[0]))
    ensures Direct(huge, level, size, strategies) && r.None? ==> t' == t
    ensures Direct(huge, level, size, strategies) && r.Some? ==>
      exists at: nat ::
        FirstGranted(level, t, size, strategies, at) && CrudeGot(huge, level, t, t', r.value, size, at)
    decreases level, 6
  {
    hide Valid, Below, SlotAddr, StartAddr, EndAddr, Allocated, SearchPages, NewTable, Clear, Trimmed;
    hide CodesExact, Loose, Litters, SubsValid, Direct, CrudeGot;
    hide Searched, Exhausted, SlotExhausted, Admitted, MaxPage, Remainder, OnlyPages;
    hide AllocGranted, OffsetGranted, LeadsTo, PlacedAt;
    if MinPage(strategies[0]) < MaxPage(level, size, strategies[0]) {
      FitsOrHopeless(level, size, strategies);
    }
    if Valid(level, t) {
      ValidLoose(level, t);
    }
    if Direct(huge, level, size, strategies) {
      DirectHopes(huge, level, size, strategies);
    }
    ghost var at;
    t', r, at := Search(huge, level, t, size, strategies);
    hide Hopeless, FitsFresh, Windows;
    NoLitter(level, t, size, strategies);
    if r.Some? {
      forall o: nat | MinPage(strategies[0]) <= o < MaxPage(level, size, strategies[0]) && Earlier(strategies[0], o, at)
        ensures InVain(level, t, size, strategies, o)
      {
        assert o in Window(level, size, strategies[0]);
      }
      FirstFound(level, t, size, strategies, at);
      if Valid(level, t) {
        FoundValid(huge, level, t, t', r.value, size, strategies, at);
      }
    } else {
      Refused(level, t, t', size, strategies);
    }
  }

  lemma DirectHopes(huge: nat, level: nat, size: nat, strategies: seq<Strategy>)
    requires Direct(huge, level, size, strategies)
    ensures !Hopeless(level, size, strategies)
  {
  }

  lemma FirstFound(level: nat, t: Table, size: nat, strategies: seq<Strategy>, at: nat)
    requires |strategies| > 0 && WindowDefined(level, size, strategies[0]) && InSearch(level, size, strategies[0], at)
    requires OffsetGranted(level, t, size, strategies, at)
    requires forall o: nat :: InSearch(level, size, strategies[0], o) && Earlier(strategies[0], o, at) ==>
               InVain(level, t, size, strategies, o)
    ensures AllocGranted(level, t, size, strategies) && FirstGranted(level, t, size, strategies, at)
  {
    hide InSearch, OffsetGranted;
  }

  lemma FoundValid(huge: nat, level: nat, t: Table, t': Table, a: Alloc, size: nat, strategies: seq<Strategy>, at: nat)
    requires |strategies| > 0 && WindowDefined(level, size, strategies[0])
    requires FirstGranted(level, t, size, strategies, at)
    requires Valid(level, t) && GotValid(huge, level, t, t', a, size, strategies, at)
    requires forall o: nat :: InSearch(level, size, strategies[0], o) && Earlier(strategies[0], o, at) ==>
               InVain(level, t, size, strategies, o)
    ensures PlacedAt(level, t, size, strategies, StartAddr(a)) && FoundAt(level, t, a, size, strategies[0], at)
    ensures Spreads(level, size, strategies[0]) ==> !NoneClear(level, t, size, strategies[0])
    ensures size == MIN_PAGE_SIZE ==> !Exhausted(level, t, strategies)
  {
    hide OffsetGranted, LeadsTo, FirstGranted, Clear, Valid, SlotAddr, StartAddr, EndAddr, Allocated, Exhausted;
    hide SearchPages, Admitted, MaxPage;
    forall o: nat | MinPage(strategies[0]) <= o < MaxPage(level, size, strategies[0]) && Earlier(strategies[0], o, at)
      ensures !Clear(t, o, SearchPages(level, size))
    {
      assert InSearch(level, size, strategies[0], o);
      assert InVain(level, t, size, strategies, o);
    }
    FirstInSearch(level, t, size, strategies, at);
    if size == MIN_PAGE_SIZE {
      NotExhausted(huge, level, t, t', a, strategies);
    }
  }

  lemma FirstInSearch(level: nat, t: Table, size: nat, strategies: seq<Strategy>, at: nat)
    requires FirstGranted(level, t, size, strategies, at)
    ensures MinPage(strategies[0]) <= at < MaxPage(level, size, strategies[0])
  {
  }

  lemma NoneGranted(level: nat, t: Table, size: nat, strategies: seq<Strategy>)
    requires |strategies| > 0 && WindowDefined(level, size, strategies[0])
    requires forall o: nat :: InSearch(level, size, strategies[0], o) ==> InVain(level, t, size, strategies, o)
    ensures !AllocGranted(level, t, size, strategies)
  {
  }

  lemma FreshClear(level: nat, size: nat, strategy: Strategy)
    requires level >= 1 && size > 0 && WindowDefined(level, size, strategy)
    ensures MinPage(strategy) < MaxPage(level, size, strategy) ==>
              Clear(NewTable(), MinPage(strategy), SearchPages(level, size))
  {
    hide SearchPages;
    InWindow(level, size, strategy);
    NewTableClear(level);
  }

  /** What a refused search leaves. */
  lemma Refused(level: nat, t: Table, t': Table, size: nat, strategies: seq<Strategy>)
    requires level >= 1 && size > 0 && |strategies| > 0 && WindowDefined(level, size, strategies[0])
    requires if Hopeless(level, size, strategies) then
               Searched(level, t, t', size, strategies, Window(level, size, strategies[0]))
             else
               && t' == t
               && forall o: nat :: o in Window(level, size, strategies[0]) ==> InVain(level, t, size, strategies, o)
    ensures SameView(level, t, t') && (Loose(level, t) ==> Loose(level, t'))
    ensures Valid(level, t) ==> (Valid(level, t') <==> !Litters(level, t, size, strategies))
    ensures Valid(level, t) && Valid(level, t') ==> t' == t && NoneClear(level, t, size, strategies[0])
    ensures FitsFresh(level, size, strategies) ==> t != NewTable()
    ensures !AllocGranted(level, t, size, strategies)
    ensures Plain(level, t, size, strategies) ==> Exhausted(level, t, strategies)
  {
    hide Valid, CodesExact, Loose, Litters, Searched, Exhausted, MaxPage, SearchPages, Clear, Hopeless;
    hide AllocGranted, OffsetGranted;
    var strategy := strategies[0];
    NoLitter(level, t, size, strategies);
    if Hopeless(level, size, strategies) {
      SearchLoose(level, t, t', size, strategies, Window(level, size, strategy));
      HopelessFits(level, size, strategies);
      if AllocGranted(level, t, size, strategies) {
        GrantedFits(level, t, size, strategies);
      }
      if Valid(level, t) {
        SearchDone(level, t, t', size, strategies, Window(level, size, strategy));
        if Valid(level, t') {
          NoLitterClear(level, t, size, strategies);
        }
      }
      if size == MIN_PAGE_SIZE {
        NothingFits(level, t, strategies);
      }
    } else {
      forall o: nat | MinPage(strategy) <= o < MaxPage(level, size, strategy)
        ensures InVain(level, t, size, strategies, o) && (Valid(level, t) ==> !Clear(t, o, SearchPages(level, size)))
      {
        assert o in Window(level, size, strategy);
      }
      NoneGranted(level, t, size, strategies);
      NewTableValid(level);
      AllInVain(level, t, size, strategies);
      FreshClear(level, size, strategy);
    }
  }
}
