/** Requests that are refused and leave the table in a worse state, or are refused although there is room. */
module Refusals {
  import opened Options
  import opened Layout
  import opened Availability
  import opened PageTables
  import opened Allocations
  import opened Slots
  import opened Strategies
  import opened AddressParts
  import opened Staging
  import opened Trimming
  import opened CodeMeaning
  import opened Granting
  import opened Leftovers
  import opened Finding
  import opened Overlaps
  import opened FirstFit

  /** The last page of slot 0 of a level-2 table. */
  const LAST: nat := 511 * MIN_PAGE_SIZE

  /** Where slot 1 of a level-2 table begins. */
  const NEXT: nat := 512 * MIN_PAGE_SIZE

  /** The last page of slot 0 and the first page of slot 1, as a range of a level-2 table. */
  lemma AcrossParts()
    ensures PageSize(2) == NEXT && Span(2) == 512 * NEXT && Span(1) == NEXT
    ensures StartIdx(2, LAST) == 1 && StartRemAt(2, LAST) == LAST
    ensures StartRemSize(2, LAST, 2 * MIN_PAGE_SIZE) == MIN_PAGE_SIZE
    ensures MainSize(2, LAST, 2 * MIN_PAGE_SIZE) == MIN_PAGE_SIZE && Remainder(2, MIN_PAGE_SIZE) == MIN_PAGE_SIZE
    ensures EndIdx(2, LAST, 2 * MIN_PAGE_SIZE) == 1 && EndIdx(2, LAST, MIN_PAGE_SIZE) == 1
  {
  }

  lemma NeverTooFull(t: Table, addr: nat, size: nat)
    ensures !TooFull(1, t, addr, size)
  {
  }

  /** The trailing page is granted, the leading one is not. */
  lemma AcrossUndone(t: Table)
    requires Valid(2, t) && Tidy(2, t)
    requires ViewAt(2, t, LAST) != Free && RangeFree(2, t, NEXT, MIN_PAGE_SIZE)
    ensures !Granted(2, t, LAST, 2 * MIN_PAGE_SIZE)
    ensures UndoSite(2, t, LAST, 2 * MIN_PAGE_SIZE) == Some(Site(2, t, 1, MIN_PAGE_SIZE))
  {
    hide Valid, Trimmed, CodesExact, SlotView, Get, PageSize, SlotAddr, StartIdx, StartRemAt, StartRemSize;
    hide MainSize, EndIdx, Remainder;
    AcrossParts();
    SlotAddrSucc(2, 0);
    RemGrantedIff(2, t, 1, 0, MIN_PAGE_SIZE);
    FreeInSlot(2, t, NEXT, MIN_PAGE_SIZE, 1, 0, MIN_PAGE_SIZE);
    Sized(2, t);
    NeverTooFull(SubOf(t, 1), 0, MIN_PAGE_SIZE);
    RemGrantedIff(2, t, 0, LAST, MIN_PAGE_SIZE);
    SlotAt(2, 0, LAST);
    assert SlotView(2, t, 0, LAST) != Free;
  }

  /** The table in which nothing but the last page of slot 0 is taken. */
  lemma AfterLast(huge: nat, t: Table, a: Alloc)
    requires Valid(2, t) && Trimmed(2, t)
    requires Allocated(huge, 2, NewTable(), t, a, MIN_PAGE_SIZE) && StartAddr(a) == LAST
    ensures ViewAt(2, t, LAST) != Free && RangeFree(2, t, NEXT, Span(2) - NEXT)
    ensures Get(t.bitmap, 1) == EMPTY
  {
    hide Valid, Trimmed, ViewAt, Get, PageSize, SlotAddr, Shape, Backed, StartAddr, EndAddr;
    AcrossParts();
    NewTableValid(2);
    assert Covers(a, LAST);
    forall v: nat | NEXT <= v
      ensures ViewAt(2, t, v) == Free
    {
      assert !Covers(a, v);
    }
    SlotAddrSucc(2, 0);
    FreeInSlot(2, t, NEXT, Span(2) - NEXT, 1, 0, PageSize(2));
    EmptyIsFree(2, t, 1);
  }

  /** With slot 1 empty, the refused request leaves an empty sub-table there. */
  method RefusedIntoEmpty(huge: nat) returns (t: Table, t': Table, r: Option<Alloc>)
    requires 1 <= huge
    ensures Valid(2, t) && Tidy(2, t) && Valid(2, t') && r.None?
    ensures SameView(2, t, t') && !Trimmed(2, t')
  {
    hide Valid, Trimmed, CodesExact, ViewAt, Get, PageSize, Granted, UndoSite, LeavesCode, CodeWith, Shape;
    hide Backed, StartAddr, EndAddr;
    AcrossParts();
    NewTableValid(2);
    NewTableTidy(2);
    var a;
    t, a := AllocateAt(huge, 2, NewTable(), LAST, MIN_PAGE_SIZE);
    AfterLast(huge, t, a.value);
    AcrossUndone(t);
    t', r := AllocateAt(huge, 2, t, LAST, 2 * MIN_PAGE_SIZE);
  }

  /** Slot 1 apart from its first page, and its first page alone. */
  lemma RestParts()
    ensures StartIdx(2, NEXT + MIN_PAGE_SIZE) == 2 && StartRemAt(2, NEXT + MIN_PAGE_SIZE) == MIN_PAGE_SIZE
    ensures StartRemSize(2, NEXT + MIN_PAGE_SIZE, LAST) == LAST && MainSize(2, NEXT + MIN_PAGE_SIZE, LAST) == 0
    ensures EndIdx(2, NEXT + MIN_PAGE_SIZE, LAST) == 2 && Remainder(2, 0) == 0
    ensures StartIdx(2, NEXT) == 1 && StartRemAt(2, NEXT) == 0 && MainSize(2, NEXT, MIN_PAGE_SIZE) == MIN_PAGE_SIZE
    ensures EndIdx(2, NEXT, MIN_PAGE_SIZE) == 1
  {
    assert PageSize(2) == NEXT;
  }

  lemma RestGranted(t: Table)
    requires Valid(2, t) && Tidy(2, t) && RangeFree(2, t, NEXT, Span(2) - NEXT) && Get(t.bitmap, 1) == EMPTY
    ensures Granted(2, t, NEXT + MIN_PAGE_SIZE, LAST)
  {
    hide Valid, Trimmed, CodesExact, SlotView, Get, PageSize, SlotAddr, StartIdx, StartRemAt, StartRemSize;
    hide MainSize, EndIdx, Remainder;
    AcrossParts();
    RestParts();
    SlotAddrSucc(2, 0);
    Sized(2, t);
    NeverTooFull(SubOf(t, 1), MIN_PAGE_SIZE, LAST);
    FreeInSlot(2, t, NEXT, Span(2) - NEXT, 1, MIN_PAGE_SIZE, LAST);
    RemGrantedIff(2, t, 1, MIN_PAGE_SIZE, LAST);
  }

  /** Slot 1 is full apart from its first page. */
  ghost predicate AllButFirst(t: Table)
  {
    && RangeFree(2, t, NEXT, MIN_PAGE_SIZE)
    && forall v: nat :: NEXT + MIN_PAGE_SIZE <= v < 2 * NEXT ==> ViewAt(2, t, v) != Free
  }

  lemma AfterRest(huge: nat, t0: Table, t: Table, a: Alloc)
    requires Allocated(huge, 2, t0, t, a, LAST) && StartAddr(a) == NEXT + MIN_PAGE_SIZE
    requires ViewAt(2, t0, LAST) != Free && RangeFree(2, t0, NEXT, Span(2) - NEXT)
    ensures ViewAt(2, t, LAST) != Free && AllButFirst(t)
  {
    hide ViewAt, PageSize, Shape, Backed, StartAddr, EndAddr;
    AcrossParts();
    assert !Covers(a, LAST);
    forall v: nat | NEXT <= v < NEXT + MIN_PAGE_SIZE
      ensures ViewAt(2, t, v) == Free
    {
      assert !Covers(a, v) && ViewAt(2, t0, v) == Free;
    }
    forall v: nat | NEXT + MIN_PAGE_SIZE <= v < 2 * NEXT
      ensures ViewAt(2, t, v) != Free
    {
      assert Covers(a, v);
    }
  }

  /** The first page makes the difference between a full sub-table and one that is not. */
  lemma FirstPageFills(t: Table)
    requires Valid(2, t) && Tidy(2, t) && AllButFirst(t)
    ensures WellSized(t) && Get(t.bitmap, 1) != EMPTY
    ensures CodeWith(Site(2, t, 1, MIN_PAGE_SIZE)) == FULL && LeavesCode(Some(Site(2, t, 1, MIN_PAGE_SIZE)))
  {
    hide Valid, Trimmed, CodesExact, SlotView, Get, PageSize, SlotAddr;
    AcrossParts();
    SlotAddrSucc(2, 0);
    Sized(2, t);
    forall o: nat | o < NEXT
      ensures SlotView(2, t, 1, o) != Free <==> MIN_PAGE_SIZE <= o
    {
      SlotAt(2, 1, o);
      assert ViewAt(2, t, NEXT + o) != Free <==> MIN_PAGE_SIZE <= o;
    }
    EmptyIsFree(2, t, 1);
    assert SlotView(2, t, 1, MIN_PAGE_SIZE) != Free && SlotView(2, t, 1, 0) == Free;
    NotFull(2, t, 1, 0);
    EnterableBelow(2, t, 1);
    SubOfView(2, t, 1);
    hide ViewAt;
    var sub := SubOf(t, 1);
    forall v: nat | v < Span(1)
      ensures v in UsedWith(1, sub, MIN_PAGE_SIZE)
    {
      assert SlotView(2, t, 1, v) == ViewAt(1, sub, v);
    }
    assert 0 !in UsedIn(1, sub) by {
      assert SlotView(2, t, 1, 0) == ViewAt(1, sub, 0);
    }
  }

  /** With slot 1 full apart from its first page, the refused request leaves a code that says the slot is
      full, and the free page can no longer be had. */
  method RefusedIntoFull(huge: nat) returns (t: Table, t': Table, r: Option<Alloc>, u: Table, q: Option<Alloc>)
    requires 1 <= huge
    ensures Valid(2, t) && Tidy(2, t) && Valid(2, t') && r.None?
    ensures SameView(2, t, t') && Trimmed(2, t') && !CodesExact(2, t')
    ensures RangeFree(2, t', NEXT, MIN_PAGE_SIZE) && q.None?
  {
    hide Valid, Trimmed, CodesExact, ViewAt, Get, PageSize, Granted, UndoSite, LeavesCode, CodeWith, Shape;
    hide Backed, StartAddr, EndAddr;
    AcrossParts();
    RestParts();
    NewTableValid(2);
    NewTableTidy(2);
    var t1, a := AllocateAt(huge, 2, NewTable(), LAST, MIN_PAGE_SIZE);
    AfterLast(huge, t1, a.value);
    RestGranted(t1);
    var b;
    t, b := AllocateAt(huge, 2, t1, NEXT + MIN_PAGE_SIZE, LAST);
    AfterRest(huge, t1, t, b.value);
    AcrossUndone(t);
    FirstPageFills(t);
    t', r := AllocateAt(huge, 2, t, LAST, 2 * MIN_PAGE_SIZE);
    Sized(2, t');
    FirstPageRefused(t');
    u, q := AllocateAt(huge, 2, t', NEXT, MIN_PAGE_SIZE);
  }

  lemma FirstPageRefused(t: Table)
    requires WellSized(t) && Get(t.bitmap, 1) == FULL
    ensures !Granted(2, t, NEXT, MIN_PAGE_SIZE)
  {
    hide PageSize, Get, StartIdx, StartRemAt, StartRemSize, MainSize, EndIdx, Remainder;
    AcrossParts();
    RestParts();
  }

  /** The user-heap strategies, 511 GiB and one page, and an empty address space: the request is refused
      and leaves a table behind in every slot of the top level that looks empty. */
  method RefusedHeap(huge: nat) returns (t': Table, r: Option<Alloc>)
    requires 1 <= huge
    ensures r.None? && !Valid(4, t') && SameView(4, NewTable(), t')
  {
    hide Valid, ViewAt, Loose, PageSize, Windows, FitsFresh;
    var size := 511 * PageSize(3) + MIN_PAGE_SIZE;
    HeapSize();
    UserHeapLimit(size);
    NewTableValid(4);
    HeapLitters(size);
    t', r := Allocate(huge, 4, NewTable(), size, USER_HEAP);
  }

  lemma HeapSize()
    ensures 0 < 511 * PageSize(3) + MIN_PAGE_SIZE < PageSize(4)
    ensures (511 * PageSize(3) + MIN_PAGE_SIZE) % MIN_PAGE_SIZE == 0
  {
    assert PageSize(2) == 0x20_0000;
    assert PageSize(3) == 0x4000_0000;
  }

  lemma HeapLitters(size: nat)
    requires 0 < size < PageSize(4) && size % MIN_PAGE_SIZE == 0 && Hopeless(4, size, USER_HEAP)
    ensures Litters(4, NewTable(), size, USER_HEAP) && !FitsFresh(4, size, USER_HEAP)
  {
    HopelessFits(4, size, USER_HEAP);
    hide PageSize, Hopeless, FitsFresh;
    WholePages(4, size);
    NewTableValid(4);
    assert LittersSlot(4, NewTable(), 0, size, USER_HEAP);
  }

  // ---- A free range that is refused ----

  /** Half of a slot of a level-3 table, and where a page lies in its second half. */
  const HALF: nat := 256 * NEXT
  const BEYOND: nat := HALF + LAST

  lemma HalfParts()
    ensures PageSize(2) == NEXT && PageSize(3) == 2 * HALF && Span(2) == 2 * HALF && Span(3) == 1024 * HALF
    ensures StartIdx(3, BEYOND) == 1 && StartRemAt(3, BEYOND) == BEYOND
    ensures StartRemSize(3, BEYOND, 2 * HALF - BEYOND) == 2 * HALF - BEYOND
    ensures MainSize(3, BEYOND, 2 * HALF - BEYOND) == 0 && EndIdx(3, BEYOND, 2 * HALF - BEYOND) == 1
    ensures Remainder(3, 0) == 0
    ensures StartIdx(2, BEYOND) == 257 && StartRemAt(2, BEYOND) == LAST
    ensures StartRemSize(2, BEYOND, 2 * HALF - BEYOND) == MIN_PAGE_SIZE
    ensures MainSize(2, BEYOND, 2 * HALF - BEYOND) == 255 * NEXT && Remainder(2, 255 * NEXT) == 0
    ensures StartIdx(3, MIN_PAGE_SIZE) == 1 && StartRemAt(3, MIN_PAGE_SIZE) == MIN_PAGE_SIZE
    ensures StartRemSize(3, MIN_PAGE_SIZE, HALF) == HALF && MainSize(3, MIN_PAGE_SIZE, HALF) == 0
    ensures EndIdx(3, MIN_PAGE_SIZE, HALF) == 1
    ensures StartIdx(3, 0) == 0 && EndIdx(3, 0, MIN_PAGE_SIZE) == 0
  {
    assert PageSize(2) == NEXT;
    assert PageSize(3) == 2 * HALF;
  }

  lemma BeyondGranted(t: Table)
    requires Valid(3, t) && Tidy(3, t) && RangeFree(3, t, BEYOND, 2 * HALF - BEYOND)
    ensures Granted(3, t, BEYOND, 2 * HALF - BEYOND)
  {
    hide Valid, Trimmed, CodesExact, SlotView, ViewAt, Get, PageSize, SlotAddr, StartIdx, StartRemAt;
    hide StartRemSize, MainSize, EndIdx, Remainder;
    HalfParts();
    Sized(3, t);
    var sub := SubOf(t, 0);
    if WellSized(sub) {
      NeverTooFull(SubOf(sub, 256), LAST, MIN_PAGE_SIZE);
    }
    assert !RemTooFull(2, sub, 256, LAST, MIN_PAGE_SIZE);
    assert !TooFull(2, sub, BEYOND, 2 * HALF - BEYOND);
    GrantedIff(3, t, BEYOND, 2 * HALF - BEYOND);
  }

  /** More than half of the parts of slot 0 are in use, but only at their edges as far as the middle goes. */
  ghost predicate Edges(t: Table)
  {
    && ViewAt(3, t, 0) != Free && RangeFree(3, t, MIN_PAGE_SIZE, HALF)
    && forall v: nat :: BEYOND <= v < 2 * HALF ==> ViewAt(3, t, v) != Free
  }

  lemma EdgesHalfFull(t: Table)
    requires Valid(3, t) && Tidy(3, t) && Edges(t)
    ensures WellSized(t) && Get(t.bitmap, 0) == HALF_FULL
  {
    hide Valid, Trimmed, CodesExact, SlotView, Get, PageSize, SlotAddr;
    HalfParts();
    Sized(3, t);
    SlotAddrSucc(3, 0);
    forall o: nat | o < 2 * HALF
      ensures SlotView(3, t, 0, o) == ViewAt(3, t, o)
    {
      SlotAt(3, 0, o);
    }
    NotFull(3, t, 0, MIN_PAGE_SIZE);
    EnterableBelow(3, t, 0);
    SubOfView(3, t, 0);
    SubTidy(3, t, 0);
    var sub := SubOf(t, 0);
    var used := UsedIn(2, sub);
    forall v: nat | v < 2 * HALF
      ensures v in used <==> ViewAt(3, t, v) != Free
    {
      assert SlotView(3, t, 0, v) == ViewAt(2, sub, v);
    }
    EmptyIsFree(3, t, 0);
    hide ViewAt, UsedIn;
    CodeIsUse(2, sub);
    assert MIN_PAGE_SIZE !in used;
    PartsAtEdges(used, NPAGES);
  }

  lemma PartsAtEdges(used: iset<nat>, n: nat)
    requires 0 in used && forall v: nat :: BEYOND <= v < 2 * HALF ==> v in used
    requires n == NPAGES
    ensures PartsUsed(2, used, n) > n / 2
  {
    hide PartsUsed, PartUsed;
    EdgePart(used, 0);
    forall i: nat | 256 <= i < n
      ensures PartUsed(2, used, i)
    {
      EdgePart(used, i);
    }
    PartsFrom(2, used, 256, n);
  }

  lemma EdgePart(used: iset<nat>, i: nat)
    requires 0 in used && forall v: nat :: BEYOND <= v < 2 * HALF ==> v in used
    requires i == 0 || 256 <= i < NPAGES
    ensures PartUsed(2, used, i)
  {
    hide PageSize, SlotAddr;
    var v := 0;
    if i > 0 {
      InHalf(i);
      v := SlotAddr(2, i) + LAST;
    } else {
      SlotAddrSucc(2, 0);
    }
    assert v in used;
  }

  lemma InHalf(i: nat)
    requires 256 <= i < NPAGES
    ensures BEYOND <= SlotAddr(2, i) + LAST < 2 * HALF && SlotAddr(2, i) + LAST < SlotAddr(2, i + 1)
  {
    assert PageSize(2) == NEXT;
  }

  lemma HalfRefused(t: Table)
    requires WellSized(t) && Get(t.bitmap, 0) == HALF_FULL
    ensures !Granted(3, t, MIN_PAGE_SIZE, HALF)
  {
    hide PageSize, Get, StartIdx, StartRemAt, StartRemSize, MainSize, EndIdx, Remainder;
    HalfParts();
  }

  lemma AfterEdges(huge: nat, t1: Table, t: Table, a: Alloc, b: Alloc)
    requires Allocated(huge, 3, NewTable(), t1, a, MIN_PAGE_SIZE) && StartAddr(a) == 0
    requires Allocated(huge, 3, t1, t, b, 2 * HALF - BEYOND) && StartAddr(b) == BEYOND
    ensures Edges(t)
  {
    hide ViewAt, PageSize, Shape, Backed, StartAddr, EndAddr;
    NewTableValid(3);
    assert Covers(a, 0) && !Covers(b, 0);
    forall v: nat | MIN_PAGE_SIZE <= v < MIN_PAGE_SIZE + HALF
      ensures ViewAt(3, t, v) == Free
    {
      assert !Covers(a, v) && !Covers(b, v);
    }
    forall v: nat | BEYOND <= v < 2 * HALF
      ensures ViewAt(3, t, v) != Free
    {
      assert Covers(b, v);
    }
  }

  /** Half a gigabyte, free from end to end and in a tidy table, is refused because the slot it lies in is
      more than half full by the count of its parts. */
  method RefusedHalf(huge: nat) returns (t: Table, t': Table, r: Option<Alloc>)
    requires 1 <= huge
    ensures Valid(3, t) && Tidy(3, t) && RangeFree(3, t, MIN_PAGE_SIZE, HALF) && r.None?
  {
    hide Valid, Trimmed, CodesExact, ViewAt, Get, PageSize, Granted, UndoSite, LeavesCode, CodeWith, Shape;
    hide Backed, StartAddr, EndAddr;
    HalfParts();
    NewTableValid(3);
    NewTableTidy(3);
    var t1, a := AllocateAt(huge, 3, NewTable(), 0, MIN_PAGE_SIZE);
    FirstTaken(huge, t1, a.value);
    BeyondGranted(t1);
    var b;
    t, b := AllocateAt(huge, 3, t1, BEYOND, 2 * HALF - BEYOND);
    AfterEdges(huge, t1, t, a.value, b.value);
    EdgesHalfFull(t);
    HalfRefused(t);
    t', r := AllocateAt(huge, 3, t, MIN_PAGE_SIZE, HALF);
  }

  lemma FirstTaken(huge: nat, t: Table, a: Alloc)
    requires Allocated(huge, 3, NewTable(), t, a, MIN_PAGE_SIZE) && StartAddr(a) == 0
    ensures RangeFree(3, t, BEYOND, 2 * HALF - BEYOND)
  {
    hide ViewAt, PageSize, Shape, Backed, StartAddr, EndAddr;
    NewTableValid(3);
    forall v: nat | BEYOND <= v
      ensures ViewAt(3, t, v) == Free
    {
      assert !Covers(a, v);
    }
  }

  // ---- What a left-behind sub-table costs ----

  /** A level-1 table may only use its last slot. */
  const LAST_SLOT: seq<Strategy> := [NEW_DEFAULT, NEW_DEFAULT.(minPage := Some(511))]

  /** Two pages do not fit into one slot. */
  lemma PairHopeless()
    ensures PageSize(2) == NEXT && NextLevelDown(LAST_SLOT) == LAST_SLOT[1..]
    ensures Windows(2, 2 * MIN_PAGE_SIZE, LAST_SLOT) && Hopeless(2, 2 * MIN_PAGE_SIZE, LAST_SLOT)
    ensures forall t :: !Litters(1, t, 2 * MIN_PAGE_SIZE, NextLevelDown(LAST_SLOT))
    ensures forall i: nat :: i in Window(2, 2 * MIN_PAGE_SIZE, LAST_SLOT[0]) <==> i < NPAGES
  {
    assert PageSize(2) == NEXT;
    assert SearchPages(2, 2 * MIN_PAGE_SIZE) == 1 && SearchPages(1, 2 * MIN_PAGE_SIZE) == 2;
    assert LAST_SLOT[1..] == [NEW_DEFAULT.(minPage := Some(511))];
    forall i: nat
      ensures i in Window(2, 2 * MIN_PAGE_SIZE, LAST_SLOT[0]) <==> i < NPAGES
    {
      assert InSearch(2, 2 * MIN_PAGE_SIZE, LAST_SLOT[0], i) <==> i < NPAGES;
    }
  }

  /** Every slot looks empty and has an empty sub-table. */
  ghost predicate Haunted(t: Table)
  {
    && WellSized(t)
    && forall i :: 0 <= i < NPAGES ==> Get(t.bitmap, i) == EMPTY && t.subs[i] == Some(NewTable())
  }

  lemma AfterPair(t: Table)
    requires Searched(2, NewTable(), t, 2 * MIN_PAGE_SIZE, LAST_SLOT, Window(2, 2 * MIN_PAGE_SIZE, LAST_SLOT[0]))
    ensures Haunted(t) && SubsValid(2, t)
  {
    hide Valid, Get, Litters, Window, Hopeless, Windows, ViewAt, Loose;
    PairHopeless();
    NewTableValid(2);
    NewTableValid(1);
    forall i: nat | i < NPAGES
      ensures Get(t.bitmap, i) == EMPTY && t.subs[i] == Some(NewTable())
    {
      assert LittersSlot(2, NewTable(), i, 2 * MIN_PAGE_SIZE, LAST_SLOT);
      assert SlotAfter(2, NewTable(), t, i, 2 * MIN_PAGE_SIZE, LAST_SLOT);
    }
  }

  /** The first slot is tried first, and taken if it can be had. */
  lemma FirstIsZero(t: Table, size: nat, at: nat)
    requires size > 0 && WindowDefined(2, size, NEW_DEFAULT) && OffsetGranted(2, t, size, ALLOCATION_DEFAULT, 0)
    ensures AllocGranted(2, t, size, ALLOCATION_DEFAULT)
    ensures FirstGranted(2, t, size, ALLOCATION_DEFAULT, at) ==> at == 0
  {
    hide OffsetGranted, SearchPages;
    InWindow(2, size, NEW_DEFAULT);
    assert InSearch(2, size, NEW_DEFAULT, 0);
    assert Earlier(NEW_DEFAULT, 0, at) <==> at > 0;
  }

  lemma DirectSizes(huge: nat)
    requires 2 <= huge
    ensures FitsFresh(2, NEXT, ALLOCATION_DEFAULT) && FitsFresh(2, MIN_PAGE_SIZE, ALLOCATION_DEFAULT)
    ensures FitsFresh(1, MIN_PAGE_SIZE, ALLOCATION_DEFAULT) && PageSize(2) == NEXT
    ensures Direct(huge, 2, NEXT, ALLOCATION_DEFAULT) && Direct(huge, 2, MIN_PAGE_SIZE, ALLOCATION_DEFAULT)
    ensures !PassedDown(2, NEXT) && PassedDown(2, MIN_PAGE_SIZE) && !PassedDown(1, MIN_PAGE_SIZE)
    ensures Pages(2, NEXT) == 1 && Remainder(2, NEXT) == 0
    ensures Pages(1, MIN_PAGE_SIZE) == 1 && Remainder(1, MIN_PAGE_SIZE) == 0
  {
    assert PageSize(2) == NEXT && Span(2) == 512 * NEXT && Span(1) == NEXT;
    DefaultFits(2, NEXT);
    DefaultFits(2, MIN_PAGE_SIZE);
    DefaultFits(1, MIN_PAGE_SIZE);
  }

  /** A whole slot is granted over the sub-table. */
  lemma WholeGranted(t: Table)
    requires Haunted(t)
    ensures OffsetGranted(2, t, NEXT, ALLOCATION_DEFAULT, 0)
  {
    hide Get, PageSize, Pages, Remainder;
    DirectSizes(2);
  }

  /** A page is granted inside it afterwards. */
  lemma PageGranted(t: Table)
    requires WellSized(t) && t.subs[0] == Some(NewTable()) && Get(t.bitmap, 0) < FULL
    ensures OffsetGranted(2, t, MIN_PAGE_SIZE, ALLOCATION_DEFAULT, 0)
  {
    hide Get, PageSize, Pages, Remainder, FitsFresh, MaxPage, SearchPages;
    DirectSizes(2);
    NewTableValid(1);
    FitsZero();
    assert OffsetGranted(1, NewTable(), MIN_PAGE_SIZE, ALLOCATION_DEFAULT, 0);
    assert AllocGranted(1, NewTable(), MIN_PAGE_SIZE, ALLOCATION_DEFAULT);
    assert NextLevelDown(ALLOCATION_DEFAULT) == ALLOCATION_DEFAULT;
  }

  lemma FitsZero()
    ensures WindowDefined(1, MIN_PAGE_SIZE, NEW_DEFAULT) && InSearch(1, MIN_PAGE_SIZE, NEW_DEFAULT, 0)
    ensures WindowDefined(2, MIN_PAGE_SIZE, NEW_DEFAULT) && WindowDefined(2, NEXT, NEW_DEFAULT)
  {
    assert PageSize(2) == NEXT;
  }

  /** Both allocations hold the start of the smaller one. */
  lemma BothHold(huge: nat, t: Table, t1: Table, t2: Table, a: Alloc, b: Alloc)
    requires PagesGot(2, t, t1, a, 0, 1) && NestedGot(huge, 2, t1, t2, b, MIN_PAGE_SIZE, 0)
    ensures Covers(a, StartAddr(b)) && Covers(b, StartAddr(b))
  {
    hide Valid, Backed, Taken, RunReserved, PageSize;
    ShapeBounds(huge, 1, b.items[0].alloc);
    SpanBelow(2);
    SlotAddrSucc(2, 0);
    assert a.items == [Page(0, 0)];
  }

  /** A refused request for two pages, then a slot, then a page: the last two are both granted, and both own
      the page. */
  method OwnedTwice(huge: nat)
    returns (t: Table, t1: Table, t2: Table, r: Option<Alloc>, a: Alloc, b: Alloc)
    requires 2 <= huge
    ensures r.None?
    ensures Searched(2, NewTable(), t, 2 * MIN_PAGE_SIZE, LAST_SLOT, Window(2, 2 * MIN_PAGE_SIZE, LAST_SLOT[0]))
    ensures PagesGot(2, t, t1, a, 0, 1) && NestedGot(huge, 2, t1, t2, b, MIN_PAGE_SIZE, 0)
    ensures exists v: nat :: Covers(a, v) && Covers(b, v)
  {
    hide Valid, Loose, Get, Windows, FitsFresh, Hopeless, AllocGranted, OffsetGranted, FirstGranted, Litters, Searched;
    hide SubsValid, PageSize, Window, Direct, PagesGot, NestedGot, PassedDown, Covers, StartAddr, Pages;
    PairHopeless();
    NewTableValid(2);
    DirectSizes(huge);
    FitsWindows(2, NEXT, ALLOCATION_DEFAULT);
    FitsWindows(2, MIN_PAGE_SIZE, ALLOCATION_DEFAULT);
    FitsZero();
    var x, y;
    t, r := Allocate(huge, 2, NewTable(), 2 * MIN_PAGE_SIZE, LAST_SLOT);
    AfterPair(t);
    WholeGranted(t);
    FirstIsZero(t, NEXT, 0);
    forall at: nat
      ensures FirstGranted(2, t, NEXT, ALLOCATION_DEFAULT, at) ==> at == 0
    {
      FirstIsZero(t, NEXT, at);
    }
    t1, x := Allocate(huge, 2, t, NEXT, ALLOCATION_DEFAULT);
    a := x.value;
    Reserved(t, t1, a);
    PageGranted(t1);
    FirstIsZero(t1, MIN_PAGE_SIZE, 0);
    forall at: nat
      ensures FirstGranted(2, t1, MIN_PAGE_SIZE, ALLOCATION_DEFAULT, at) ==> at == 0
    {
      FirstIsZero(t1, MIN_PAGE_SIZE, at);
    }
    t2, y := Allocate(huge, 2, t1, MIN_PAGE_SIZE, ALLOCATION_DEFAULT);
    b := y.value;
    BothHold(huge, t, t1, t2, a, b);
  }

  lemma Reserved(t: Table, t1: Table, a: Alloc)
    requires Haunted(t) && PagesGot(2, t, t1, a, 0, 1)
    ensures WellSized(t1) && t1.subs[0] == Some(NewTable()) && Get(t1.bitmap, 0) < FULL && SubsValid(2, t1)
  {
    hide Get, IsFull, PageSize;
    assert SlotReserved(t, t1, 0);
    NoneUsed(NewTable().entries);
    NewTableValid(1);
    forall i | 0 <= i < NPAGES && t1.subs[i].Some?
      ensures t1.subs[i] == Some(NewTable())
    {
      assert i == 0 || SameSlot(t, t1, i);
    }
  }
}
