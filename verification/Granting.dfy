/** Which requests for a given range are granted, and what a refused one leaves behind. */
module Granting {
  import opened Options
  import opened Layout
  import opened Availability
  import opened PageTables
  import opened Allocations
  import opened Slots
  import opened Strategies
  import opened AddressParts
  import opened Staging
  import opened Releasing
  import opened Trimming
  import opened CodeMeaning

  /** The fullest code a slot may have for `size` more bytes to be tried inside it. */
  function Required(level: nat, size: nat): (code: bv8)
    ensures EMPTY < code < FULL
  {
    if size >= PageSize(level) / 2 then TABLE else HALF_FULL
  }

  /** [inner, inner + size) can be had inside slot `idx`. */
  ghost predicate RemGranted(level: nat, t: Table, idx: nat, inner: nat, size: nat)
    decreases level, 0
  {
    && level > 1 && WellSized(t) && idx < NPAGES
    && Get(t.bitmap, idx) <= Required(level, size)
    && Granted(level - 1, SubOf(t, idx), inner, size)
  }

  ghost predicate PartsGranted(level: nat, t: Table, start: nat, end: nat, at: nat, lead: nat, remainder: nat)
    decreases level, 1
  {
    && start <= end && Clear(t, start, end - start)
    && (remainder != 0 ==> RemGranted(level, t, end, 0, remainder))
    && (at != 0 ==> start > 0 && RemGranted(level, t, start - 1, at, lead))
  }

  /** [addr, addr + size) can be had: the whole slots in it are empty, and the remainders can be had. */
  ghost predicate Granted(level: nat, t: Table, addr: nat, size: nat)
    decreases level, 2
  {
    PartsGranted(level, t, StartIdx(level, addr), EndIdx(level, addr, size), StartRemAt(level, addr),
                 StartRemSize(level, addr, size), Remainder(level, MainSize(level, addr, size)))
  }

  // ---- Granting is about free addresses ----

  ghost predicate RangeFree(level: nat, t: Table, addr: nat, size: nat)
  {
    forall v: nat :: addr <= v < addr + size ==> ViewAt(level, t, v) == Free
  }

  /** A remainder of half a slot or more meets a slot that is more than half full. */
  ghost predicate RemTooFull(level: nat, t: Table, idx: nat, inner: nat, size: nat)
    decreases level, 0
  {
    && level > 1 && WellSized(t) && idx < NPAGES
    && (|| (Get(t.bitmap, idx) == HALF_FULL && size >= PageSize(level) / 2)
        || TooFull(level - 1, SubOf(t, idx), inner, size))
  }

  /** On the way to one of the ends of the range. */
  ghost predicate TooFull(level: nat, t: Table, addr: nat, size: nat)
    decreases level, 1
  {
    var start, rem := StartIdx(level, addr), Remainder(level, MainSize(level, addr, size));
    || (rem != 0 && RemTooFull(level, t, EndIdx(level, addr, size), 0, rem))
    || (StartRemAt(level, addr) != 0 && start > 0
        && RemTooFull(level, t, start - 1, StartRemAt(level, addr), StartRemSize(level, addr, size)))
  }

  ghost predicate SlotFree(level: nat, t: Table, i: nat, inner: nat, size: nat)
  {
    forall o: nat :: inner <= o < inner + size ==> SlotView(level, t, i, o) == Free
  }

  ghost predicate SlotsFree(level: nat, t: Table, start: nat, end: nat)
  {
    forall i: nat :: start <= i < end ==> SlotFree(level, t, i, 0, PageSize(level))
  }

  /** The range, cut into the parts of its slots. */
  ghost predicate PartsFree(level: nat, t: Table, addr: nat, size: nat)
  {
    var start, end := StartIdx(level, addr), EndIdx(level, addr, size);
    var rem := Remainder(level, MainSize(level, addr, size));
    && (StartRemAt(level, addr) != 0 ==>
          start > 0 && SlotFree(level, t, start - 1, StartRemAt(level, addr), StartRemSize(level, addr, size)))
    && SlotsFree(level, t, start, end)
    && (rem != 0 ==> SlotFree(level, t, end, 0, rem))
  }

  lemma FreeInSlot(level: nat, t: Table, addr: nat, size: nat, i: nat, inner: nat, n: nat)
    requires RangeFree(level, t, addr, size) && inner + n <= PageSize(level)
    requires n > 0 ==> addr <= SlotAddr(level, i) + inner && SlotAddr(level, i) + inner + n <= addr + size
    ensures SlotFree(level, t, i, inner, n)
  {
    hide PageSize, SlotView, SlotAddr;
    forall o: nat | inner <= o < inner + n
      ensures SlotView(level, t, i, o) == Free
    {
      SlotAt(level, i, o);
      assert ViewAt(level, t, SlotAddr(level, i) + o) == Free;
    }
  }

  lemma SlotAt(level: nat, i: nat, o: nat)
    requires o < PageSize(level)
    ensures (SlotAddr(level, i) + o) / PageSize(level) == i && (SlotAddr(level, i) + o) % PageSize(level) == o
  {
    hide PageSize;
    SlotOffset(i, o, PageSize(level));
  }

  lemma RangeByParts(level: nat, t: Table, addr: nat, size: nat)
    requires level >= 1 && size > 0 && size % MIN_PAGE_SIZE == 0 && addr % MIN_PAGE_SIZE == 0
    ensures RangeFree(level, t, addr, size) <==> PartsFree(level, t, addr, size)
  {
    hide PageSize, SlotView, SlotAddr, StartRemAt, StartIdx, StartRemSize, MainSize, Pages, Remainder;
    AddrParts(level, addr, size);
    AddrEnd(level, addr, size);
    WholePages(level, MainSize(level, addr, size));
    var start, end := StartIdx(level, addr), EndIdx(level, addr, size);
    var rem := Remainder(level, MainSize(level, addr, size));
    var at, lead := StartRemAt(level, addr), StartRemSize(level, addr, size);
    if at != 0 {
      SlotAddrSucc(level, start - 1);
    }
    if RangeFree(level, t, addr, size) {
      if at != 0 {
        FreeInSlot(level, t, addr, size, start - 1, at, lead);
      }
      forall i | start <= i < end
        ensures SlotFree(level, t, i, 0, PageSize(level))
      {
        SlotAddrMonotone(level, start, i);
        SlotAddrSucc(level, i);
        SlotAddrMonotone(level, i + 1, end);
        FreeInSlot(level, t, addr, size, i, 0, PageSize(level));
      }
      SlotAddrMonotone(level, start, end);
      FreeInSlot(level, t, addr, size, end, 0, rem);
    }
    if PartsFree(level, t, addr, size) {
      forall v: nat | addr <= v < addr + size
        ensures ViewAt(level, t, v) == Free
      {
        PartAt(level, t, addr, size, v);
      }
    }
  }

  /** Every address of the range lies in one of the parts. */
  lemma PartAt(level: nat, t: Table, addr: nat, size: nat, v: nat)
    requires level >= 1 && size > 0 && size % MIN_PAGE_SIZE == 0 && addr % MIN_PAGE_SIZE == 0
    requires PartsFree(level, t, addr, size) && addr <= v < addr + size
    ensures ViewAt(level, t, v) == Free
  {
    hide PageSize, SlotView, SlotAddr, StartRemAt, StartIdx, StartRemSize, MainSize, Pages, Remainder;
    AddrParts(level, addr, size);
    AddrEnd(level, addr, size);
    WholePages(level, MainSize(level, addr, size));
    var start, end := StartIdx(level, addr), EndIdx(level, addr, size);
    var rem := Remainder(level, MainSize(level, addr, size));
    var at, lead := StartRemAt(level, addr), StartRemSize(level, addr, size);
    var i, o := v / PageSize(level), v % PageSize(level);
    SlotOf(level, v);
    if at != 0 {
      SlotAddrSucc(level, start - 1);
    }
    if i < start {
      SlotAddrMonotone(level, i + 1, start);
      if i + 1 < start {
        SlotAddrMonotone(level, i + 1, start - 1);
      }
      assert i == start - 1 && at <= o < at + lead;
    } else if i < end {
      assert SlotFree(level, t, i, 0, PageSize(level));
    } else {
      SlotAddrMonotone(level, end, i);
      if i > end {
        SlotAddrMonotone(level, end + 1, i);
        SlotAddrSucc(level, end);
      }
      assert i == end && o < rem;
    }
  }

  lemma SlotOf(level: nat, v: nat)
    ensures var i, o := v / PageSize(level), v % PageSize(level);
            && v == SlotAddr(level, i) + o && o < PageSize(level)
            && SlotAddr(level, i + 1) == SlotAddr(level, i) + PageSize(level)
  {
    hide PageSize;
    DivBounds(v, PageSize(level));
  }

  lemma FreeInSub(level: nat, t: Table, i: nat, s: Table, inner: nat, size: nat)
    requires level > 0 && forall o: nat :: SlotView(level, t, i, o) == ViewAt(level - 1, s, o)
    ensures SlotFree(level, t, i, inner, size) <==> RangeFree(level - 1, s, inner, size)
  {
    hide SlotView;
    var below := level - 1;
    if SlotFree(level, t, i, inner, size) {
      forall v: nat | inner <= v < inner + size
        ensures ViewAt(below, s, v) == Free
      {
        assert SlotView(level, t, i, v) == Free;
      }
    }
  }

  /** A remainder is granted exactly when it is free and its slots are not too full for it. */
  lemma {:induction false} RemGrantedIff(level: nat, t: Table, idx: nat, inner: nat, size: nat)
    requires level > 1 && Valid(level, t) && Tidy(level, t) && idx < NPAGES
    requires size > 0 && size % MIN_PAGE_SIZE == 0 && inner % MIN_PAGE_SIZE == 0 && inner + size <= PageSize(level)
    ensures RemGranted(level, t, idx, inner, size)
       <==> SlotFree(level, t, idx, inner, size) && !RemTooFull(level, t, idx, inner, size)
    decreases level, 0
  {
    hide Valid, SlotView, ViewAt, PageSize, Trimmed, CodesExact, Get, TooFull, Granted;
    Sized(level, t);
    FullSlot(level, t, idx);
    if Get(t.bitmap, idx) == FULL {
      assert SlotView(level, t, idx, inner) != Free;
    } else {
      EnterableBelow(level, t, idx);
      SubOfView(level, t, idx);
      SubTidy(level, t, idx);
      SpanBelow(level);
      GrantedIff(level - 1, SubOf(t, idx), inner, size);
      FreeInSub(level, t, idx, SubOf(t, idx), inner, size);
    }
  }

  /** In a tidy table `allocate_at` is refused for no other reason than that something in the range is in
      use, or that an end of the range needs half a slot or more of one that is more than half full. */
  lemma {:induction false} GrantedIff(level: nat, t: Table, addr: nat, size: nat)
    requires level >= 1 && Valid(level, t) && Tidy(level, t)
    requires size > 0 && size % MIN_PAGE_SIZE == 0 && addr % MIN_PAGE_SIZE == 0 && addr + size <= Span(level)
    ensures Granted(level, t, addr, size) <==> RangeFree(level, t, addr, size) && !TooFull(level, t, addr, size)
    decreases level, 1
  {
    hide Valid, SlotView, ViewAt, PageSize, SlotAddr, Trimmed, CodesExact, Get, RemGranted, RemTooFull;
    hide SlotFree, RangeFree;
    hide StartRemAt, StartIdx, StartRemSize, MainSize, Pages, Remainder, SlotsFree, Clear, PartsSite, UndoSite, RemSite;
    AddrParts(level, addr, size);
    AddrEnd(level, addr, size);
    MainAreaFits(level, addr, size);
    WholePages(level, MainSize(level, addr, size));
    RangeByParts(level, t, addr, size);
    var start, end := StartIdx(level, addr), EndIdx(level, addr, size);
    var rem := Remainder(level, MainSize(level, addr, size));
    var at, lead := StartRemAt(level, addr), StartRemSize(level, addr, size);
    if at != 0 {
      RemGrantedIff(level, t, start - 1, at, lead);
    }
    if rem != 0 {
      RemGrantedIff(level, t, end, 0, rem);
    }
    ClearIsFree(level, t, start, end);
  }

  lemma ClearIsFree(level: nat, t: Table, start: nat, end: nat)
    requires Valid(level, t) && Trimmed(level, t) && start <= end <= NPAGES
    ensures Clear(t, start, end - start) <==> SlotsFree(level, t, start, end)
  {
    hide Valid, SlotView, PageSize, Trimmed, Get;
    Sized(level, t);
    hide SlotFree;
    if Clear(t, start, end - start) {
      forall i | start <= i < end
        ensures SlotFree(level, t, i, 0, PageSize(level))
      {
        EmptyIsFree(level, t, i);
      }
    }
    if SlotsFree(level, t, start, end) {
      forall i | start <= i < end
        ensures Get(t.bitmap, i) == EMPTY
      {
        assert SlotFree(level, t, i, 0, PageSize(level));
        EmptyIsFree(level, t, i);
      }
      assert Clear(t, start, end - start);
    }
  }

  lemma EmptyIsFree(level: nat, t: Table, i: nat)
    requires Valid(level, t) && Trimmed(level, t) && i < NPAGES
    ensures Get(t.bitmap, i) == EMPTY <==> SlotFree(level, t, i, 0, PageSize(level))
  {
    hide Valid, SlotView, PageSize, Trimmed, Get;
    if Get(t.bitmap, i) == EMPTY {
      forall o: nat
        ensures SlotView(level, t, i, o) == Free
      {
        EmptySlotView(level, t, i, o);
      }
    } else if SlotFree(level, t, i, 0, PageSize(level)) {
      FreeIsEmpty(level, t, i);
    }
  }

  // ---- What a refusal leaves behind ----

  /** A slot whose trailing remainder of `size` bytes is taken and given back again. */
  datatype Site = Site(level: nat, table: Table, slot: nat, size: nat)

  ghost function RemSite(level: nat, t: Table, idx: nat, inner: nat, size: nat): Option<Site>
    decreases level, 0
  {
    if level > 1 && WellSized(t) && idx < NPAGES && Get(t.bitmap, idx) <= Required(level, size)
    then UndoSite(level - 1, SubOf(t, idx), inner, size)
    else None
  }

  ghost function PartsSite(level: nat, t: Table, start: nat, end: nat, at: nat, lead: nat, remainder: nat): Option<Site>
    decreases level, 1
  {
    if at == 0 || start == 0 || start > end then None
    else if start == end && remainder == 0 then RemSite(level, t, start - 1, at, lead)
    else if remainder != 0 && Clear(t, start, end - start) && RemGranted(level, t, end, 0, remainder)
            && !RemGranted(level, t, start - 1, at, lead)
    then Some(Site(level, t, end, remainder))
    else None
  }

  /** Where a refused request for [addr, addr + size) had already taken its trailing remainder. */
  ghost function UndoSite(level: nat, t: Table, addr: nat, size: nat): Option<Site>
    decreases level, 2
  {
    PartsSite(level, t, StartIdx(level, addr), EndIdx(level, addr, size), StartRemAt(level, addr),
              StartRemSize(level, addr, size), Remainder(level, MainSize(level, addr, size)))
  }

  /** The slot was empty. */
  ghost predicate LeavesTable(site: Option<Site>)
  {
    site.Some? && site.value.slot < NPAGES && Get(site.value.table.bitmap, site.value.slot) == EMPTY
  }

  /** The used addresses of a table once its first `size` bytes are taken too. */
  ghost function UsedWith(level: nat, t: Table, size: nat): iset<nat>
  {
    iset v: nat | v < Span(level) && (ViewAt(level, t, v) != Free || v < size)
  }

  /** The code of the slot with the remainder in it. */
  ghost function CodeWith(site: Site): bv8
    requires site.level > 1 && site.slot < |site.table.subs|
  {
    CodeFor(site.level - 1, UsedWith(site.level - 1, SubOf(site.table, site.slot), site.size))
  }

  /** The slot has another code with the remainder than without it. */
  ghost predicate LeavesCode(site: Option<Site>)
  {
    && site.Some? && site.value.level > 1 && site.value.slot < |site.value.table.subs|
    && var below, sub := site.value.level - 1, SubOf(site.value.table, site.value.slot);
       CodeWith(site.value) != CodeFor(below, UsedIn(below, sub))
  }

  /** A range that reaches the end of the table has no trailing remainder at any level. */
  lemma {:induction false} NoUndoAtEnd(level: nat, t: Table, addr: nat, size: nat)
    requires level >= 1 && size > 0 && size % MIN_PAGE_SIZE == 0 && addr % MIN_PAGE_SIZE == 0
    requires addr + size == Span(level)
    ensures UndoSite(level, t, addr, size) == None
    decreases level
  {
    hide PageSize, SlotAddr, StartRemAt, StartIdx, StartRemSize, MainSize, Pages, Remainder, Get, Clear, RemGranted;
    AddrParts(level, addr, size);
    AddrEnd(level, addr, size);
    MainAreaFits(level, addr, size);
    WholePages(level, MainSize(level, addr, size));
    var start, end := StartIdx(level, addr), EndIdx(level, addr, size);
    var rem := Remainder(level, MainSize(level, addr, size));
    var at, lead := StartRemAt(level, addr), StartRemSize(level, addr, size);
    if rem != 0 {
      SlotAddrStep(level, end, NPAGES);
    } else if at != 0 && start == end {
      assert MainSize(level, addr, size) == 0;
      if start < NPAGES {
        SlotAddrSucc(level, start - 1);
        SlotAddrStep(level, start, NPAGES);
      }
      assert start == NPAGES;
      SlotAddrSucc(level, start - 1);
      SlotAddrStep(level, 0, NPAGES);
      SpanBelow(level);
      if WellSized(t) {
        NoUndoAtEnd(level - 1, SubOf(t, start - 1), at, lead);
      }
      assert RemSite(level, t, start - 1, at, lead) == None;
    }
  }

  /** What a granted remainder leaves in its slot: a refreshed sub-table as tidy as before. */
  ghost predicate RemKept(level: nat, t: Table, t': Table, idx: nat)
  {
    && level > 1 && WellSized(t) && WellSized(t') && idx < NPAGES && Enterable(t, idx) && t'.subs[idx].Some?
    && Get(t'.bitmap, idx) == TableCode(t'.subs[idx].value)
    && StaysTidy(level - 1, SubOf(t, idx), t'.subs[idx].value)
  }

  /** Undoing keeps a tidy table trimmed unless the slot was empty before. */
  lemma UndoneTrimmed(level: nat, t: Table, t': Table, idx: nat, s: Table)
    requires level > 1 && Valid(level, t) && Valid(level - 1, s) && idx < NPAGES && Enterable(t, idx)
    requires SameExcept(t, t', idx) && t'.subs[idx] == Some(s)
    requires Trimmed(level, t) && Trimmed(level - 1, s) && SameView(level - 1, SubOf(t, idx), s)
    ensures Trimmed(level, t') <==> Get(t.bitmap, idx) != EMPTY
  {
    hide Valid, Trimmed, ViewAt, NumPagesUsed, Get;
    TrimOne(level, t, t', idx);
    SubTidy(level, t, idx);
    SubOfView(level, t, idx);
    if t.subs[idx].Some? {
      SlotSub(level, t, idx);
      SlotSubCode(level, t, idx);
      var v := ShowsSomething(level - 1, SubOf(t, idx));
      if NumPagesUsed(s) == 0 {
        EmptySubView(level - 1, s);
      }
    } else if NumPagesUsed(s) > 0 {
      NewTableValid(level - 1);
      var v := ShowsSomething(level - 1, s);
    }
  }

  /** Undoing keeps a table tidy unless the slot was empty before, or had another code. */
  lemma UndoneTidy(level: nat, t: Table, t1: Table, t': Table, idx: nat, s: Table, size: nat)
    requires level > 1 && Valid(level, t) && Valid(level, t1) && Valid(level - 1, s) && idx < NPAGES
    requires Enterable(t, idx)
    requires SameExcept(t, t1, idx) && RemKept(level, t, t1, idx) && t' == SetSub(t1, idx, Some(s))
    requires StaysTidy(level - 1, t1.subs[idx].value, s) && SameView(level - 1, SubOf(t, idx), s)
    requires UsedIn(level - 1, t1.subs[idx].value) == UsedWith(level - 1, SubOf(t, idx), size)
    requires Tidy(level, t)
    ensures var site := Some(Site(level, t, idx, size));
            && (Tidy(level, t') <==> !LeavesTable(site) && !LeavesCode(site))
            && Get(t'.bitmap, idx) == CodeWith(site.value)
  {
    hide Valid, Trimmed, CodesExact, ViewAt, NumPagesUsed, Get, CodeFor, UsedWith, TableCode;
    SubTidy(level, t, idx);
    SlotSub(level, t1, idx);
    assert SameExcept(t, t', idx) by {
      forall j | 0 <= j < NPAGES && j != idx
        ensures SameSlot(t, t', j)
      {
        assert SameSlot(t, t1, j);
      }
    }
    UndoneTrimmed(level, t, t', idx, s);
    CodeOne(level, t, t', idx);
    CodeIsUse(level - 1, t1.subs[idx].value);
    CodeIsUse(level - 1, s);
    assert UsedIn(level - 1, s) == UsedIn(level - 1, SubOf(t, idx));
  }

  /** The remainder was given back at this level. */
  ghost predicate Here(level: nat, site: Option<Site>)
  {
    && site.Some? && level > 1 && site.value.level == level
    && site.value.slot < NPAGES && site.value.slot < |site.value.table.subs|
  }

  /** Exactly when a refusal keeps a table trimmed, and exactly when it keeps it tidy. */
  ghost predicate RefusedTidy(level: nat, t: Table, t': Table, site: Option<Site>)
  {
    && (Trimmed(level, t) ==> (Trimmed(level, t') <==> !LeavesTable(site)))
    && (Tidy(level, t) ==> (Tidy(level, t') <==> !LeavesTable(site) && !LeavesCode(site)))
    && (Tidy(level, t) && Here(level, site) ==> Get(t'.bitmap, site.value.slot) == CodeWith(site.value))
  }

  lemma {:induction false} SiteLevel(level: nat, t: Table, addr: nat, size: nat)
    ensures UndoSite(level, t, addr, size).Some? ==> UndoSite(level, t, addr, size).value.level <= level
    decreases level, 1
  {
    hide PageSize, StartIdx, StartRemAt, StartRemSize, MainSize, Remainder, Clear, RemGranted, Get;
    var start := StartIdx(level, addr);
    if start > 0 {
      RemSiteLevel(level, t, start - 1, StartRemAt(level, addr), StartRemSize(level, addr, size));
    }
  }

  lemma {:induction false} RemSiteLevel(level: nat, t: Table, idx: nat, inner: nat, size: nat)
    ensures RemSite(level, t, idx, inner, size).Some? ==> RemSite(level, t, idx, inner, size).value.level < level
    decreases level, 0
  {
    hide PageSize, Get;
    if level > 1 && WellSized(t) && idx < NPAGES {
      SiteLevel(level - 1, SubOf(t, idx), inner, size);
    }
  }

  /** A sub-table that refused, seen from the table that holds it. */
  lemma RefusedInside(level: nat, t: Table, idx: nat, s: Table, site: Option<Site>)
    requires level > 1 && Valid(level, t) && idx < NPAGES && WellSized(t) && t.subs[idx].Some? && Valid(level - 1, s)
    requires SameView(level - 1, t.subs[idx].value, s) && RefusedTidy(level - 1, t.subs[idx].value, s, site)
    requires site.Some? ==> site.value.level < level
    ensures RefusedTidy(level, t, SetSub(t, idx, Some(s)), site)
  {
    hide Valid, Trimmed, CodesExact, ViewAt, NumPagesUsed, Get, CodeFor, CodeWith, TableCode, LeavesTable, LeavesCode;
    var t', sub := SetSub(t, idx, Some(s)), t.subs[idx].value;
    SubTidy(level, t, idx);
    SlotSub(level, t, idx);
    SlotSubCode(level, t, idx);
    if Trimmed(level, t) {
      TrimOne(level, t, t', idx);
      if Trimmed(level - 1, s) {
        UndoneTrimmed(level, t, t', idx, s);
      }
    }
    if Tidy(level, t) {
      CodeOne(level, t, t', idx);
      if Tidy(level - 1, s) {
        CodeIsUse(level - 1, s);
        CodeIsUse(level - 1, sub);
        assert UsedIn(level - 1, s) == UsedIn(level - 1, sub);
      }
    }
  }

  lemma RemSame(level: nat, t: Table, t': Table, idx: nat, inner: nat, size: nat)
    requires WellSized(t) && WellSized(t') && idx < NPAGES && SameSlot(t, t', idx)
    ensures RemGranted(level, t, idx, inner, size) <==> RemGranted(level, t', idx, inner, size)
    ensures RemSite(level, t, idx, inner, size) == RemSite(level, t', idx, inner, size)
  {
  }

  lemma OutsideFree(level: nat, t: Table, v: nat)
    requires WellSized(t) && v >= Span(level)
    ensures ViewAt(level, t, v) == Free
  {
    hide PageSize;
    SlotInTable(v, PageSize(level), NPAGES);
    SlotOutside(level, t, v);
  }

  /** A remainder that was taken and given back. */
  lemma UndoneUse(huge: nat, level: nat, t: Table, t1: Table, idx: nat, a: Alloc, s: Table)
    requires Valid(level, t) && Valid(level, t1) && SubTaken(huge, level, t, t1, idx, a, 0, EndAddr(a))
    requires Enterable(t, idx)
    requires Valid(level - 1, s) && Released(level - 1, t1.subs[idx].value, s, a)
    ensures SameView(level - 1, SubOf(t, idx), s)
    ensures UsedIn(level - 1, t1.subs[idx].value) == UsedWith(level - 1, SubOf(t, idx), EndAddr(a))
  {
    hide SlotView, ViewAt, Shape, Backed, PageSize, EndAddr, Get, Valid;
    var s0, s1, below := SubOf(t, idx), t1.subs[idx].value, level - 1;
    SpanBelow(level);
    SubOfView(level, t, idx);
    SubOfView(level, t1, idx);
    Sized(below, s0);
    Sized(below, s);
    forall v: nat
      ensures ViewAt(below, s0, v) == ViewAt(below, s, v)
      ensures v < Span(below) ==> (ViewAt(below, s1, v) != Free <==> ViewAt(below, s0, v) != Free || v < EndAddr(a))
    {
      if v < Span(below) {
        assert SlotView(level, t, idx, v) == ViewAt(below, s0, v);
        assert SlotView(level, t1, idx, v) == ViewAt(below, s1, v);
        assert Covers(a, v) <==> v < EndAddr(a);
      } else {
        OutsideFree(below, s0, v);
        OutsideFree(below, s, v);
      }
    }
    assert forall v: nat :: v in UsedIn(below, s1) <==> v in UsedWith(below, s0, EndAddr(a));
  }

  lemma UndoReady(huge: nat, level: nat, t: Table, t1: Table, idx: nat, a: Alloc)
    requires Valid(level, t) && Valid(level, t1) && SubTaken(huge, level, t, t1, idx, a, 0, EndAddr(a))
    ensures idx < NPAGES && StartAddr(a) == 0 && Shape(huge, level - 1, a)
    ensures t1.subs[idx].Some? && Valid(level - 1, t1.subs[idx].value) && Backed(a, t1.subs[idx].value)
    ensures SameExcept(t, t1, idx)
  {
    hide Valid, SlotView, Shape, Backed, StartAddr, EndAddr;
    SlotSub(level, t1, idx);
  }

  lemma UndoneKept(level: nat, t: Table, t1: Table, idx: nat, s: Table, size: nat)
    requires level > 1 && Valid(level, t) && Valid(level, t1) && Valid(level - 1, s)
    requires SameExcept(t, t1, idx) && RemKept(level, t, t1, idx)
    requires StaysTidy(level - 1, t1.subs[idx].value, s) && SameView(level - 1, SubOf(t, idx), s)
    requires UsedIn(level - 1, t1.subs[idx].value) == UsedWith(level - 1, SubOf(t, idx), size)
    ensures RefusedTidy(level, t, SetSub(t1, idx, Some(s)), Some(Site(level, t, idx, size)))
  {
    hide Valid, Trimmed, CodesExact, ViewAt, NumPagesUsed, Get, CodeFor, UsedWith, TableCode, LeavesCode, CodeWith;
    var t' := SetSub(t1, idx, Some(s));
    SubTidy(level, t, idx);
    if Trimmed(level, t) {
      assert SameExcept(t, t', idx) by {
        forall j | 0 <= j < NPAGES && j != idx
          ensures SameSlot(t, t', j)
        {
          assert SameSlot(t, t1, j);
        }
      }
      UndoneTrimmed(level, t, t', idx, s);
    }
    if Tidy(level, t) {
      UndoneTidy(level, t, t1, t', idx, s, size);
    }
  }

  lemma UnchangedTidy(level: nat, t: Table)
    ensures RefusedTidy(level, t, t, None)
  {
  }

  /** A remainder at the start of its slot undoes nothing. */
  lemma NoUndoAtStart(level: nat, t: Table, idx: nat, size: nat)
    ensures RemSite(level, t, idx, 0, size) == None
  {
    hide PageSize, Granted, RemGranted;
    if level > 1 && WellSized(t) && idx < NPAGES {
      assert StartRemAt(level - 1, 0) == 0;
      assert UndoSite(level - 1, SubOf(t, idx), 0, size) == None;
    }
  }

  /** A leading remainder that reaches the end of its slot undoes nothing. */
  lemma NoUndoInRem(level: nat, t: Table, idx: nat, at: nat, lead: nat)
    requires level > 1 && at % MIN_PAGE_SIZE == 0 && lead > 0 && lead % MIN_PAGE_SIZE == 0
    requires at + lead == PageSize(level)
    ensures RemSite(level, t, idx, at, lead) == None
  {
    if WellSized(t) && idx < NPAGES {
      SpanBelow(level);
      NoUndoAtEnd(level - 1, SubOf(t, idx), at, lead);
    }
  }

  /** The scan of the whole slots [start, end) meets an occupied one before it leaves the table, if it
      would leave it. */
  ghost predicate ScanStops(t: Table, start: nat, end: nat)
  {
    end <= NPAGES || exists i :: start <= i < NPAGES && Get(t.bitmap, i) != EMPTY
  }
}
