/** What the strategies mean to the caller of `allocate`: which ranges they admit, which of those can be had, and
    which one is taken. Told by addresses, and not by the window that the search computes. */
module Limits {
  import opened Options
  import opened Layout
  import opened Availability
  import opened PageTables
  import opened Slots
  import opened Strategies
  import opened AddressParts
  import opened Staging
  import opened Trimming
  import opened CodeMeaning
  import opened Granting
  import opened Finding

  /** The slot of a table of level `l` in which an address lies. */
  function SlotOf(l: nat, v: nat): nat
  {
    v / PageSize(l) % NPAGES
  }

  /** The request gets down to a table of level `l`: it is smaller than the pages of all levels above. */
  predicate Reaches(level: nat, size: nat, l: nat)
  {
    1 <= l <= level && (l < level ==> size < PageSize(l + 1))
  }

  /** One strategy per level from the top down, the last one repeated. */
  function StrategyFor(level: nat, strategies: seq<Strategy>, l: nat): Strategy
    requires l <= level && |strategies| > 0
  {
    if level - l < |strategies| then strategies[level - l] else strategies[|strategies| - 1]
  }

  /** The slots from `first` to `last` lie within the limits, both of which are inclusive. */
  predicate Admits(s: Strategy, first: nat, last: nat)
  {
    (s.minPage.Some? ==> s.minPage.value <= first) && (s.maxPage.Some? ==> last <= s.maxPage.value)
  }

  /** On every level that the request gets to, its slots lie within the limits of the strategy there. */
  ghost predicate AdmittedRange(level: nat, size: nat, strategies: seq<Strategy>, addr: nat)
  {
    |strategies| > 0 && size > 0 && forall l: nat :: Reaches(level, size, l) ==>
      Admits(StrategyFor(level, strategies, l), SlotOf(l, addr), SlotOf(l, addr + size - 1))
  }

  /** The way to `addr` is open, and the range is at the start of a slot and would be granted by `allocate_at`. */
  ghost predicate CanBeHad(level: nat, t: Table, size: nat, strategies: seq<Strategy>, addr: nat)
    decreases level
  {
    && |strategies| > 0
    && if level > 1 && size < PageSize(level) then
         var i := addr / PageSize(level);
         && WellSized(t) && i < NPAGES && Get(t.bitmap, i) < FULL
         && (strategies[0].spreadMode ==> Get(t.bitmap, i) == EMPTY)
         && CanBeHad(level - 1, SubOf(t, i), size, NextLevelDown(strategies), addr % PageSize(level))
       else addr % PageSize(level) == 0 && Granted(level, t, addr, size)
  }

  ghost predicate Fits(level: nat, t: Table, size: nat, strategies: seq<Strategy>, addr: nat)
  {
    CanBeHad(level, t, size, strategies, addr) && AdmittedRange(level, size, strategies, addr)
  }

  /** `a` comes before `b`: on the highest level on which their slots differ, in the direction of its strategy. */
  ghost predicate Before(level: nat, size: nat, strategies: seq<Strategy>, a: nat, b: nat)
  {
    |strategies| > 0 && exists l: nat ::
      && Reaches(level, size, l)
      && (forall h: nat :: l < h <= level ==> SlotOf(h, a) == SlotOf(h, b))
      && if StrategyFor(level, strategies, l).reverseOrder then SlotOf(l, b) < SlotOf(l, a)
         else SlotOf(l, a) < SlotOf(l, b)
  }

  // ---- The window ----

  /** Slots that a request of `size` bytes takes up, the last one perhaps in part. */
  function Needed(level: nat, size: nat): nat
  {
    (size + PageSize(level) - 1) / PageSize(level)
  }

  lemma SearchPagesNeeded(level: nat, size: nat)
    requires level >= 1 && size % MIN_PAGE_SIZE == 0
    ensures SearchPages(level, size) == Needed(level, size)
  {
    hide PageSize;
    var d := PageSize(level);
    WholePages(level, size);
    var p, r := Pages(level, size), Remainder(level, size);
    if r > 0 {
      assert size + d - 1 == p * d + d + (r - 1);
      MulSucc(p, d);
      SlotOffset(p + 1, r - 1, d);
    } else {
      SlotOffset(p, d - 1, d);
    }
  }

  /** The search tries slot `i` exactly if the slots from there on lie in the table and within the limits. */
  lemma WindowMeans(level: nat, size: nat, s: Strategy, i: nat)
    requires level >= 1 && size > 0 && size % MIN_PAGE_SIZE == 0
    ensures WindowDefined(level, size, s) && InSearch(level, size, s, i)
       <==> i + Needed(level, size) <= NPAGES && Admits(s, i, i + Needed(level, size) - 1)
  {
    hide PageSize, Needed, SearchPages;
    SearchPagesNeeded(level, size);
    SomeNeeded(level, size);
  }

  lemma SomeNeeded(level: nat, size: nat)
    requires level >= 1 && size > 0
    ensures Needed(level, size) >= 1
    ensures size < PageSize(level) ==> Needed(level, size) == 1
  {
    hide PageSize;
    var d := PageSize(level);
    if size < d {
      MulSucc(0, d);
      SlotOffset(1, size - 1, d);
    } else {
      SlotInTable(size + d - 1, d, 1);
    }
  }

  // ---- Slots of addresses ----

  lemma SlotsOfRun(level: nat, size: nat, i: nat)
    requires level >= 1 && size > 0
    ensures (SlotAddr(level, i) + size - 1) / PageSize(level) == i + Needed(level, size) - 1
    ensures SlotAddr(level, i) / PageSize(level) == i && SlotAddr(level, i) % PageSize(level) == 0
  {
    hide PageSize;
    var d := PageSize(level);
    SlotOffset(i, 0, d);
    var q, r := Divided(size - 1, d);
    assert size + d - 1 == q * d + d + r;
    MulSucc(q, d);
    SlotOffset(q + 1, r, d);
    MulAdd(i, q, d);
    SlotOffset(i + q, r, d);
  }

  lemma {:induction false} SlotBelow(level: nat, l: nat, v: nat)
    requires 1 <= l < level
    ensures SlotOf(l, v) == SlotOf(l, v % PageSize(level))
    decreases level - l
  {
    hide PageSize;
    if l + 1 == level {
      var d := PageSize(l);
      assert PageSize(level) == NPAGES * d by { LevelAbove(l); }
      var q, r := Divided(v, NPAGES * d);
      var i, o := Divided(r, d);
      MulAssoc(q, NPAGES, d);
      MulAdd(q * NPAGES, i, d);
      SlotOffset(q * NPAGES + i, o, d);
      SlotOffset(i, o, d);
      SlotInTable(r, d, NPAGES);
      RemainderOfMultiple(q, NPAGES, i);
    } else {
      SlotBelow(l + 1, l, v);
      SlotBelow(l + 1, l, v % PageSize(level));
      SameRemainder(level, l + 1, v);
    }
  }

  lemma LevelAbove(l: nat)
    requires l >= 1
    ensures PageSize(l + 1) == NPAGES * PageSize(l)
  {
  }

  lemma {:induction false} SameRemainder(level: nat, l: nat, v: nat)
    requires 1 <= l <= level
    ensures v % PageSize(level) % PageSize(l) == v % PageSize(l)
  {
    hide PageSize;
    var m := PageMultiple(level, l);
    var d := PageSize(l);
    var q, r := Divided(v, PageSize(level));
    assert q * (m * d) == q * PageSize(level);
    RemainderOfSum(q, m, d, r);
  }

  lemma {:induction false} PageMultiple(level: nat, l: nat) returns (m: nat)
    requires 1 <= l <= level
    ensures PageSize(level) == m * PageSize(l)
  {
    hide PageSize;
    if l == level {
      m := 1;
    } else {
      var n := PageMultiple(level - 1, l);
      LevelAbove(level - 1);
      MulAssoc(NPAGES, n, PageSize(l));
      m := NPAGES * n;
    }
  }

  lemma TopSlot(level: nat, v: nat)
    requires v < Span(level)
    ensures v / PageSize(level) < NPAGES && SlotOf(level, v) == v / PageSize(level)
  {
    hide PageSize;
    SlotInTable(v, PageSize(level), NPAGES);
  }
  // ---- One level at a time ----

  lemma StrategyBelow(level: nat, strategies: seq<Strategy>, l: nat)
    requires l < level && |strategies| > 0
    ensures StrategyFor(level, strategies, l) == StrategyFor(level - 1, NextLevelDown(strategies), l)
    ensures StrategyFor(level, strategies, level) == strategies[0]
  {
  }

  lemma {:induction false} LargerPages(l: nat, level: nat)
    requires l <= level
    ensures PageSize(l) <= PageSize(level)
    decreases level - l
  {
    if l < level {
      LargerPages(l, level - 1);
    }
  }

  lemma ReachesBelow(level: nat, size: nat, l: nat)
    requires level > 1
    ensures Reaches(level, size, level)
    ensures l < level ==> (Reaches(level, size, l) <==> size < PageSize(level) && Reaches(level - 1, size, l))
  {
    if 1 <= l < level {
      LargerPages(l + 1, level);
    }
    hide PageSize;
  }

  /** A range that is left to a sub-table. */
  lemma AdmittedBelow(level: nat, size: nat, strategies: seq<Strategy>, addr: nat)
    requires level > 1 && 0 < size < PageSize(level) && |strategies| > 0 && addr < Span(level)
    requires addr % PageSize(level) + size <= PageSize(level)
    ensures AdmittedRange(level, size, strategies, addr)
       <==> && Admits(strategies[0], addr / PageSize(level), addr / PageSize(level))
            && AdmittedRange(level - 1, size, NextLevelDown(strategies), addr % PageSize(level))
  {
    hide PageSize, SlotOf, Reaches, Admits, StrategyFor;
    var d, below := PageSize(level), level - 1;
    var i, o := addr / d, addr % d;
    DivBounds(addr, d);
    TopSlot(level, addr);
    LastInSlot(level, addr, size);
    ReachesBelow(level, size, level);
    StrategyBelow(level, strategies, 0);
    forall l: nat | l < level
      ensures Reaches(level, size, l) <==> Reaches(below, size, l)
      ensures StrategyFor(level, strategies, l) == StrategyFor(below, NextLevelDown(strategies), l)
    {
      ReachesBelow(level, size, l);
      StrategyBelow(level, strategies, l);
    }
    forall l: nat | Reaches(below, size, l)
      ensures 1 <= l < level
      ensures SlotOf(l, addr) == SlotOf(l, o) && SlotOf(l, addr + size - 1) == SlotOf(l, o + size - 1)
    {
      ReachedLevels(below, size, l);
      SlotBelow(level, l, addr);
      SlotBelow(level, l, addr + size - 1);
    }
    forall l: nat | Reaches(level, size, l)
      ensures l == level || Reaches(below, size, l)
    {
      ReachedLevels(level, size, l);
    }
  }

  lemma ReachedLevels(level: nat, size: nat, l: nat)
    requires Reaches(level, size, l)
    ensures 1 <= l <= level
  {
  }

  /** The range ends in the slot in which it begins. */
  lemma LastInSlot(level: nat, addr: nat, size: nat)
    requires size > 0 && addr < Span(level) && addr % PageSize(level) + size <= PageSize(level)
    ensures SlotOf(level, addr + size - 1) == addr / PageSize(level)
    ensures (addr + size - 1) % PageSize(level) == addr % PageSize(level) + size - 1
  {
    hide PageSize;
    var d := PageSize(level);
    var i, o := Divided(addr, d);
    SlotOffset(i, o, d);
    SlotOffset(i, o + size - 1, d);
    TopSlot(level, addr);
  }

  /** A request that gets no further down. */
  lemma AdmittedHere(level: nat, size: nat, strategies: seq<Strategy>, i: nat)
    requires level >= 1 && size > 0 && !PassedDown(level, size) && |strategies| > 0
    requires i + Needed(level, size) <= NPAGES
    ensures AdmittedRange(level, size, strategies, SlotAddr(level, i))
       <==> Admits(strategies[0], i, i + Needed(level, size) - 1)
  {
    hide PageSize, SlotAddr, Needed, Admits;
    SlotsOfRun(level, size, i);
    SomeNeeded(level, size);
    SmallMod(i, NPAGES);
    SmallMod(i + Needed(level, size) - 1, NPAGES);
    assert Reaches(level, size, level);
    forall l: nat
      ensures Reaches(level, size, l) <==> l == level
    {
      if level > 1 {
        ReachesBelow(level, size, l);
      }
    }
  }

  lemma InSlot(level: nat, v: nat) returns (i: nat, o: nat)
    ensures v == SlotAddr(level, i) + o && o < PageSize(level) && i == v / PageSize(level) && o == v % PageSize(level)
  {
    hide PageSize;
    i, o := Divided(v, PageSize(level));
    SlotOffset(i, o, PageSize(level));
  }

  lemma HadBelow(level: nat, t: Table, size: nat, strategies: seq<Strategy>, i: nat, o: nat)
    requires PassedDown(level, size) && |strategies| > 0 && o < PageSize(level)
    ensures CanBeHad(level, t, size, strategies, SlotAddr(level, i) + o)
       <==> && WellSized(t) && i < NPAGES && Get(t.bitmap, i) < FULL
            && (strategies[0].spreadMode ==> Get(t.bitmap, i) == EMPTY)
            && CanBeHad(level - 1, SubOf(t, i), size, NextLevelDown(strategies), o)
  {
    hide PageSize, Granted, Get;
    SlotOffset(i, o, PageSize(level));
  }

  lemma HadHere(level: nat, t: Table, size: nat, strategies: seq<Strategy>, i: nat)
    requires level >= 1 && size > 0 && size % MIN_PAGE_SIZE == 0 && !PassedDown(level, size) && |strategies| > 0
    ensures CanBeHad(level, t, size, strategies, SlotAddr(level, i)) <==> OffsetGranted(level, t, size, strategies, i)
  {
    hide PageSize, Granted, Get, OffsetGranted, SlotAddr;
    SlotsOfRun(level, size, i);
    OffsetIsAddress(level, t, size, strategies, i);
  }

  lemma HadAtStart(level: nat, t: Table, size: nat, strategies: seq<Strategy>, i: nat, o: nat)
    requires CanBeHad(level, t, size, strategies, SlotAddr(level, i) + o) && !PassedDown(level, size)
    requires o < PageSize(level)
    ensures o == 0
  {
    hide PageSize, Granted, Get;
    SlotOffset(i, o, PageSize(level));
  }

  lemma ClearInTable(t: Table, from: nat, n: nat)
    requires n > 0 && Clear(t, from, n)
    ensures from + n <= NPAGES
  {
    var last := from + n - 1;
    assert last < NPAGES && Get(t.bitmap, last) == EMPTY;
  }

  lemma OffsetInTable(level: nat, t: Table, size: nat, strategies: seq<Strategy>, i: nat)
    requires level >= 1 && size > 0 && size % MIN_PAGE_SIZE == 0 && !PassedDown(level, size)
    requires OffsetGranted(level, t, size, strategies, i)
    ensures i + Needed(level, size) <= NPAGES && SlotAddr(level, i) + size <= Span(level)
  {
    hide PageSize, Get, Pages, Remainder, Granted, SlotAddr, Needed, Clear;
    SearchPagesNeeded(level, size);
    WholePages(level, size);
    SomeNeeded(level, size);
    var p, n := Pages(level, size), Needed(level, size);
    assert PartsGranted(level, t, i, i + p, 0, 0, Remainder(level, size));
    if Remainder(level, size) == 0 {
      ClearInTable(t, i, p);
    } else {
      assert RemGranted(level, t, i + p, 0, Remainder(level, size));
    }
    PartsRange(level, size, i);
    SlotAddrMonotone(level, i + n, NPAGES);
    SlotAddrStep(level, 0, 1);
  }

  /** Whatever can be had lies in the table, and what is left to a sub-table lies there. */
  lemma {:induction false} HadInTable(level: nat, t: Table, size: nat, strategies: seq<Strategy>, i: nat, o: nat)
    requires level >= 1 && size > 0 && size % MIN_PAGE_SIZE == 0
    requires o < PageSize(level) && |strategies| > 0 && CanBeHad(level, t, size, strategies, SlotAddr(level, i) + o)
    ensures SlotAddr(level, i) + o + size <= Span(level)
    ensures PassedDown(level, size) ==> o + size <= PageSize(level)
    decreases level
  {
    hide PageSize, Granted, Get, CanBeHad, SlotAddr;
    if PassedDown(level, size) {
      HadBelow(level, t, size, strategies, i, o);
      var below := level - 1;
      var j, q := InSlot(below, o);
      HadInTable(below, SubOf(t, i), size, NextLevelDown(strategies), j, q);
      SpanBelow(level);
      SlotAddrStep(level, i, NPAGES);
    } else {
      HadAtStart(level, t, size, strategies, i, o);
      HadHere(level, t, size, strategies, i);
      OffsetInTable(level, t, size, strategies, i);
    }
  }
  // ---- What is granted, and where ----

  /** A request that gets no further down fits exactly where the search tries it and is granted it. */
  lemma FitsHere(level: nat, t: Table, size: nat, strategies: seq<Strategy>, i: nat)
    requires level >= 1 && size > 0 && size % MIN_PAGE_SIZE == 0 && !PassedDown(level, size) && |strategies| > 0
    ensures Fits(level, t, size, strategies, SlotAddr(level, i))
       <==> && WindowDefined(level, size, strategies[0]) && InSearch(level, size, strategies[0], i)
            && OffsetGranted(level, t, size, strategies, i)
  {
    hide PageSize, SlotAddr, CanBeHad, OffsetGranted, AdmittedRange, WindowDefined, InSearch, Needed, Admits;
    HadHere(level, t, size, strategies, i);
    WindowMeans(level, size, strategies[0], i);
    if OffsetGranted(level, t, size, strategies, i) {
      OffsetInTable(level, t, size, strategies, i);
      AdmittedHere(level, size, strategies, i);
    }
  }

  /** Slot `i` is one that the search tries and may go into. */
  ghost predicate Open(level: nat, t: Table, size: nat, s: Strategy, i: nat)
  {
    && WindowDefined(level, size, s) && InSearch(level, size, s, i)
    && WellSized(t) && i < NPAGES && Get(t.bitmap, i) < FULL && (s.spreadMode ==> Get(t.bitmap, i) == EMPTY)
  }

  /** A request that is left to a sub-table fits where it fits there. */
  lemma FitsBelow(level: nat, t: Table, size: nat, strategies: seq<Strategy>, i: nat, o: nat)
    requires PassedDown(level, size) && size > 0 && size % MIN_PAGE_SIZE == 0 && |strategies| > 0
    requires o < PageSize(level)
    ensures Fits(level, t, size, strategies, SlotAddr(level, i) + o)
       <==> && Open(level, t, size, strategies[0], i)
            && Fits(level - 1, SubOf(t, i), size, NextLevelDown(strategies), o)
  {
    hide PageSize, SlotAddr, CanBeHad, Get, AdmittedRange, WindowDefined, InSearch, Needed, Admits;
    HadBelow(level, t, size, strategies, i, o);
    WindowMeans(level, size, strategies[0], i);
    SomeNeeded(level, size);
    if CanBeHad(level, t, size, strategies, SlotAddr(level, i) + o) {
      HadInTable(level, t, size, strategies, i, o);
      BelowAt(level, size, strategies, i, o);
    }
  }

  lemma BelowAt(level: nat, size: nat, strategies: seq<Strategy>, i: nat, o: nat)
    requires PassedDown(level, size) && size > 0 && |strategies| > 0 && o + size <= PageSize(level) && i < NPAGES
    ensures AdmittedRange(level, size, strategies, SlotAddr(level, i) + o)
       <==> Admits(strategies[0], i, i) && AdmittedRange(level - 1, size, NextLevelDown(strategies), o)
  {
    hide PageSize, AdmittedRange, Admits;
    SlotOffset(i, o, PageSize(level));
    MulStep(i, NPAGES, PageSize(level));
    AdmittedBelow(level, size, strategies, SlotAddr(level, i) + o);
  }

  /** Whatever fits is granted. */
  lemma {:induction false} FitsIsGranted(level: nat, t: Table, size: nat, strategies: seq<Strategy>, i: nat, o: nat)
    requires level >= 1 && size > 0 && size % MIN_PAGE_SIZE == 0 && o < PageSize(level)
    requires |strategies| > 0 && Fits(level, t, size, strategies, SlotAddr(level, i) + o)
    ensures WindowDefined(level, size, strategies[0]) && InSearch(level, size, strategies[0], i)
    ensures OffsetGranted(level, t, size, strategies, i) && AllocGranted(level, t, size, strategies)
    decreases level
  {
    hide PageSize, Get, Fits, WindowDefined, InSearch, SlotAddr, PartsGranted;
    if PassedDown(level, size) {
      FitsBelow(level, t, size, strategies, i, o);
      var j, q := InSlot(level - 1, o);
      FitsIsGranted(level - 1, SubOf(t, i), size, NextLevelDown(strategies), j, q);
    } else {
      StartsSlot(level, t, size, strategies, i, o);
      FitsHere(level, t, size, strategies, i);
    }
  }

  lemma StartsSlot(level: nat, t: Table, size: nat, strategies: seq<Strategy>, i: nat, o: nat)
    requires o < PageSize(level) && !PassedDown(level, size)
    requires Fits(level, t, size, strategies, SlotAddr(level, i) + o)
    ensures o == 0
  {
    hide PageSize, SlotAddr, CanBeHad;
    HadAtStart(level, t, size, strategies, i, o);
  }

  lemma BeforeHere(level: nat, size: nat, strategies: seq<Strategy>, a: nat, b: nat)
    requires level >= 1 && |strategies| > 0 && a < Span(level) && b < Span(level)
    requires Earlier(strategies[0], a / PageSize(level), b / PageSize(level))
    ensures Before(level, size, strategies, a, b)
  {
    hide PageSize, SlotOf;
    TopSlot(level, a);
    TopSlot(level, b);
    assert Reaches(level, size, level);
  }

  lemma BeforeBelow(level: nat, size: nat, strategies: seq<Strategy>, i: nat, x: nat, y: nat)
    requires PassedDown(level, size) && |strategies| > 0 && x < PageSize(level) && y < PageSize(level) && i < NPAGES
    requires Before(level - 1, size, NextLevelDown(strategies), x, y)
    ensures Before(level, size, strategies, SlotAddr(level, i) + x, SlotAddr(level, i) + y)
  {
    var a, b := SlotAddr(level, i) + x, SlotAddr(level, i) + y;
    hide PageSize, SlotAddr, SlotOf;
    var l: nat :|
      && Reaches(level - 1, size, l)
      && (forall h: nat :: l < h <= level - 1 ==> SlotOf(h, x) == SlotOf(h, y))
      && if StrategyFor(level - 1, NextLevelDown(strategies), l).reverseOrder then SlotOf(l, y) < SlotOf(l, x)
         else SlotOf(l, x) < SlotOf(l, y);
    ReachedLevels(level - 1, size, l);
    ReachesBelow(level, size, l);
    StrategyBelow(level, strategies, l);
    forall h: nat | l <= h < level
      ensures SlotOf(h, a) == SlotOf(h, x) && SlotOf(h, b) == SlotOf(h, y)
    {
      ShiftedSlot(level, h, i, x);
      ShiftedSlot(level, h, i, y);
    }
    assert SlotOf(level, a) == SlotOf(level, b) by { SameSlotAt(level, i, x, y); }
  }

  lemma SameSlotAt(level: nat, i: nat, x: nat, y: nat)
    requires x < PageSize(level) && y < PageSize(level)
    ensures SlotOf(level, SlotAddr(level, i) + x) == SlotOf(level, SlotAddr(level, i) + y)
  {
    hide PageSize;
    SlotOffset(i, x, PageSize(level));
    SlotOffset(i, y, PageSize(level));
  }

  /** The place where a search ends fits. */
  lemma {:induction false} PlacedFits(level: nat, t: Table, size: nat, strategies: seq<Strategy>, addr: nat)
    requires level >= 1 && size > 0 && size % MIN_PAGE_SIZE == 0 && PlacedAt(level, t, size, strategies, addr)
    ensures Fits(level, t, size, strategies, addr)
    decreases level
  {
    hide PageSize, Get, Fits, WindowDefined, InSearch, SlotAddr, PartsGranted, Earlier;
    var i: nat :| FirstGranted(level, t, size, strategies, i) && LeadsTo(level, t, size, strategies, i, addr);
    if PassedDown(level, size) {
      var o := addr - SlotAddr(level, i);
      PlacedFits(level - 1, SubOf(t, i), size, NextLevelDown(strategies), o);
      FitsInSpan(level - 1, SubOf(t, i), size, NextLevelDown(strategies), o);
      SpanBelow(level);
      FitsBelow(level, t, size, strategies, i, o);
    } else {
      FitsHere(level, t, size, strategies, i);
    }
  }

  lemma FitsInSpan(level: nat, t: Table, size: nat, strategies: seq<Strategy>, addr: nat)
    requires level >= 1 && size > 0 && size % MIN_PAGE_SIZE == 0 && Fits(level, t, size, strategies, addr)
    ensures addr + size <= Span(level) && |strategies| > 0
  {
    hide PageSize, SlotAddr, CanBeHad;
    var i, o := InSlot(level, addr);
    HadInTable(level, t, size, strategies, i, o);
  }

  /** And it comes before every other place that fits. */
  lemma {:induction false} PlacedFirst(level: nat, t: Table, size: nat, strategies: seq<Strategy>, addr: nat,
                                       other: nat)
    requires level >= 1 && size > 0 && size % MIN_PAGE_SIZE == 0 && PlacedAt(level, t, size, strategies, addr)
    requires Fits(level, t, size, strategies, other) && other != addr
    ensures Before(level, size, strategies, addr, other)
    decreases level
  {
    hide PageSize, Get, Fits, WindowDefined, InSearch, SlotAddr, PartsGranted, OffsetGranted, Before;
    var i: nat :| FirstGranted(level, t, size, strategies, i) && LeadsTo(level, t, size, strategies, i, addr);
    PlacedFits(level, t, size, strategies, addr);
    FitsInSpan(level, t, size, strategies, addr);
    FitsInSpan(level, t, size, strategies, other);
    var j, q := InSlot(level, other);
    var k, o := InSlot(level, addr);
    assert k == i by { LeadsToSlot(level, t, size, strategies, i, addr); }
    FitsIsGranted(level, t, size, strategies, j, q);
    if i != j {
      assert !Earlier(strategies[0], j, i);
      BeforeHere(level, size, strategies, addr, other);
    } else if PassedDown(level, size) {
      FitsBelow(level, t, size, strategies, i, q);
      PlacedFirst(level - 1, SubOf(t, i), size, NextLevelDown(strategies), o, q);
      BeforeBelow(level, size, strategies, i, o, q);
    } else {
      StartsSlot(level, t, size, strategies, j, q);
      StartsSlot(level, t, size, strategies, i, o);
    }
  }

  lemma LeadsToSlot(level: nat, t: Table, size: nat, strategies: seq<Strategy>, i: nat, addr: nat)
    requires level >= 1 && size > 0 && size % MIN_PAGE_SIZE == 0 && LeadsTo(level, t, size, strategies, i, addr)
    ensures addr / PageSize(level) == i
  {
    hide PageSize, PlacedAt;
    if PassedDown(level, size) {
      var o, below := addr - SlotAddr(level, i), NextLevelDown(strategies);
      PlacedFits(level - 1, SubOf(t, i), size, below, o);
      FitsInSpan(level - 1, SubOf(t, i), size, below, o);
      SpanBelow(level);
      SlotOffset(i, o, PageSize(level));
    } else {
      SlotOffset(i, 0, PageSize(level));
    }
  }
  // ---- Summary ----

  /** The range at `addr` fits, and every other that does comes later. */
  ghost predicate IsFirst(level: nat, t: Table, size: nat, strategies: seq<Strategy>, addr: nat)
  {
    && Fits(level, t, size, strategies, addr)
    && forall other: nat :: Fits(level, t, size, strategies, other) && other != addr ==>
         Before(level, size, strategies, addr, other)
  }

  lemma PlacedIsFirst(level: nat, t: Table, size: nat, strategies: seq<Strategy>, addr: nat)
    requires level >= 1 && size > 0 && size % MIN_PAGE_SIZE == 0 && PlacedAt(level, t, size, strategies, addr)
    ensures IsFirst(level, t, size, strategies, addr)
  {
    hide Fits, Before, PlacedAt;
    PlacedFits(level, t, size, strategies, addr);
    forall other: nat | Fits(level, t, size, strategies, other) && other != addr
      ensures Before(level, size, strategies, addr, other)
    {
      PlacedFirst(level, t, size, strategies, addr, other);
    }
  }

  /** A request is granted exactly if it fits somewhere. */
  lemma GrantedIfFits(level: nat, t: Table, size: nat, strategies: seq<Strategy>)
    requires level >= 1 && size > 0 && size % MIN_PAGE_SIZE == 0
    ensures AllocGranted(level, t, size, strategies) <==> exists addr: nat :: Fits(level, t, size, strategies, addr)
  {
    hide Fits, AllocGranted, SlotAddr, PageSize;
    if AllocGranted(level, t, size, strategies) {
      var addr := SomePlace(level, t, size, strategies);
    }
    if addr: nat :| Fits(level, t, size, strategies, addr) {
      FitsInSpan(level, t, size, strategies, addr);
      var i, o := InSlot(level, addr);
      FitsIsGranted(level, t, size, strategies, i, o);
    }
  }

  lemma {:induction false} SomePlace(level: nat, t: Table, size: nat, strategies: seq<Strategy>) returns (addr: nat)
    requires level >= 1 && size > 0 && size % MIN_PAGE_SIZE == 0 && AllocGranted(level, t, size, strategies)
    ensures Fits(level, t, size, strategies, addr)
    decreases level
  {
    hide PageSize, Get, Fits, WindowDefined, InSearch, SlotAddr, PartsGranted;
    var i: nat :| InSearch(level, size, strategies[0], i) && OffsetGranted(level, t, size, strategies, i);
    if PassedDown(level, size) {
      var o := SomePlace(level - 1, SubOf(t, i), size, NextLevelDown(strategies));
      FitsInSpan(level - 1, SubOf(t, i), size, NextLevelDown(strategies), o);
      SpanBelow(level);
      FitsBelow(level, t, size, strategies, i, o);
      addr := SlotAddr(level, i) + o;
    } else {
      FitsHere(level, t, size, strategies, i);
      addr := SlotAddr(level, i);
    }
  }

  /** Every address of a range that fits is within the limits, on every level that the request gets to. */
  lemma {:induction false} EveryAddress(level: nat, t: Table, size: nat, strategies: seq<Strategy>, addr: nat, v: nat,
                                        l: nat)
    requires level >= 1 && size > 0 && size % MIN_PAGE_SIZE == 0 && Fits(level, t, size, strategies, addr)
    requires addr <= v < addr + size && Reaches(level, size, l)
    ensures |strategies| > 0 && Admits(StrategyFor(level, strategies, l), SlotOf(l, v), SlotOf(l, v))
  {
    hide PageSize, CanBeHad, SlotOf;
    SlotBetween(level, t, size, strategies, addr, v, l);
  }

  /** The slots of a range that fits are in order. */
  lemma {:induction false} SlotBetween(level: nat, t: Table, size: nat, strategies: seq<Strategy>, addr: nat, v: nat,
                                       l: nat)
    requires level >= 1 && size > 0 && size % MIN_PAGE_SIZE == 0 && Fits(level, t, size, strategies, addr)
    requires addr <= v < addr + size && Reaches(level, size, l)
    ensures |strategies| > 0 && SlotOf(l, addr) <= SlotOf(l, v) <= SlotOf(l, addr + size - 1)
    decreases level
  {
    hide PageSize, SlotAddr, Fits, SlotOf, Reaches;
    FitsInSpan(level, t, size, strategies, addr);
    ReachedLevels(level, size, l);
    if l == level {
      SlotsInOrder(level, addr, v);
      SlotsInOrder(level, v, addr + size - 1);
    } else {
      ReachesBelow(level, size, l);
      var i, o := InSlot(level, addr);
      FitsBelow(level, t, size, strategies, i, o);
      FitsInSpan(level - 1, SubOf(t, i), size, NextLevelDown(strategies), o);
      SpanBelow(level);
      SlotBetween(level - 1, SubOf(t, i), size, NextLevelDown(strategies), o, o + (v - addr), l);
      ShiftedSlot(level, l, i, o);
      ShiftedSlot(level, l, i, o + (v - addr));
      ShiftedSlot(level, l, i, o + size - 1);
    }
  }

  lemma ShiftedSlot(level: nat, l: nat, i: nat, o: nat)
    requires 1 <= l < level && o < PageSize(level)
    ensures SlotOf(l, SlotAddr(level, i) + o) == SlotOf(l, o)
  {
    hide SlotOf;
    SlotAt(level, i, o);
    SlotBelow(level, l, SlotAddr(level, i) + o);
  }

  lemma SlotsInOrder(level: nat, v: nat, w: nat)
    requires v <= w < Span(level)
    ensures SlotOf(level, v) <= SlotOf(level, w)
  {
    hide PageSize;
    var d := PageSize(level);
    TopSlot(level, v);
    TopSlot(level, w);
    DivBounds(v, d);
    DivBounds(w, d);
    if w / d < v / d {
      MulStep(w / d, v / d, d);
    }
  }
  // ---- By address alone ----

  /** Where no level searches backwards, the lowest address that fits is taken, and where all do, the highest. */
  lemma {:induction false} BeforeIsLower(level: nat, size: nat, strategies: seq<Strategy>, a: nat, b: nat)
    requires level >= 1 && a < Span(level) && b < Span(level) && Before(level, size, strategies, a, b)
    ensures (forall k :: 0 <= k < |strategies| ==> !strategies[k].reverseOrder) ==> a < b
    ensures (forall k :: 0 <= k < |strategies| ==> strategies[k].reverseOrder) ==> b < a
  {
    hide PageSize, SlotOf;
    var l: nat :|
      && Reaches(level, size, l)
      && (forall h: nat :: l < h <= level ==> SlotOf(h, a) == SlotOf(h, b))
      && if StrategyFor(level, strategies, l).reverseOrder then SlotOf(l, b) < SlotOf(l, a)
         else SlotOf(l, a) < SlotOf(l, b);
    ReachedLevels(level, size, l);
    if SlotOf(l, a) < SlotOf(l, b) {
      LowerSlot(level, l, a, b);
    } else {
      LowerSlot(level, l, b, a);
    }
  }

  lemma {:induction false} LowerSlot(level: nat, l: nat, a: nat, b: nat)
    requires 1 <= l <= level && a < Span(level) && b < Span(level) && SlotOf(l, a) < SlotOf(l, b)
    requires forall h: nat :: l < h <= level ==> SlotOf(h, a) == SlotOf(h, b)
    ensures a < b
    decreases level
  {
    hide PageSize, SlotOf, SlotAddr;
    if l == level {
      if b <= a {
        SlotsInOrder(level, b, a);
      }
    } else {
      TopSlot(level, a);
      TopSlot(level, b);
      var i, x := InSlot(level, a);
      var j, y := InSlot(level, b);
      SpanBelow(level);
      forall h: nat | l <= h < level
        ensures SlotOf(h, x) == SlotOf(h, a) && SlotOf(h, y) == SlotOf(h, b)
      {
        SlotBelow(level, h, a);
        SlotBelow(level, h, b);
      }
      assert SlotOf(level, a) == SlotOf(level, b);
      LowerSlot(level - 1, l, x, y);
    }
  }

  /** The range is free, and so is all of the slot on levels in spread mode; its start and end lie in slots that
      have enough room for them. */
  ghost predicate Vacant(level: nat, t: Table, size: nat, strategies: seq<Strategy>, addr: nat)
    decreases level
  {
    && |strategies| > 0 && addr + size <= Span(level) && RangeFree(level, t, addr, size)
    && if level > 1 && size < PageSize(level) then
         var i := addr / PageSize(level);
         && (strategies[0].spreadMode ==> SlotFree(level, t, i, 0, PageSize(level)))
         && i < |t.subs| && Vacant(level - 1, SubOf(t, i), size, NextLevelDown(strategies), addr % PageSize(level))
       else addr % PageSize(level) == 0 && !TooFull(level, t, addr, size)
  }

  lemma VacantBelow(level: nat, t: Table, size: nat, strategies: seq<Strategy>, i: nat, o: nat)
    requires PassedDown(level, size) && |strategies| > 0 && o < PageSize(level)
    ensures Vacant(level, t, size, strategies, SlotAddr(level, i) + o)
       <==> && SlotAddr(level, i) + o + size <= Span(level) && RangeFree(level, t, SlotAddr(level, i) + o, size)
            && (strategies[0].spreadMode ==> SlotFree(level, t, i, 0, PageSize(level)))
            && i < |t.subs| && Vacant(level - 1, SubOf(t, i), size, NextLevelDown(strategies), o)
  {
    hide PageSize, RangeFree, SlotFree, TooFull;
    SlotOffset(i, o, PageSize(level));
  }

  lemma RangeInSub(level: nat, t: Table, i: nat, s: Table, o: nat, size: nat)
    requires level > 1 && o + size <= PageSize(level)
    requires forall x: nat :: SlotView(level, t, i, x) == ViewAt(level - 1, s, x)
    ensures RangeFree(level, t, SlotAddr(level, i) + o, size) <==> RangeFree(level - 1, s, o, size)
  {
    hide PageSize, SlotView, SlotAddr;
    var addr, below := SlotAddr(level, i) + o, level - 1;
    forall v: nat | addr <= v < addr + size
      ensures ViewAt(level, t, v) == SlotView(level, t, i, v - SlotAddr(level, i))
    {
      SlotAt(level, i, v - SlotAddr(level, i));
    }
    hide ViewAt;
    if RangeFree(level, t, addr, size) {
      forall x: nat | o <= x < o + size
        ensures ViewAt(below, s, x) == Free
      {
        assert ViewAt(level, t, SlotAddr(level, i) + x) == Free;
        assert SlotView(level, t, i, x) == ViewAt(below, s, x);
      }
    }
  }

  lemma FullNotFree(level: nat, t: Table, i: nat, o: nat, size: nat)
    requires Valid(level, t) && Tidy(level, t) && i < NPAGES && Get(t.bitmap, i) == FULL
    requires size > 0 && o < PageSize(level)
    ensures !RangeFree(level, t, SlotAddr(level, i) + o, size)
  {
    hide PageSize, SlotView, SlotAddr, Valid, Trimmed, CodesExact, Get;
    FullSlot(level, t, i);
    SlotAt(level, i, o);
    assert SlotView(level, t, i, o) != Free;
    assert ViewAt(level, t, SlotAddr(level, i) + o) != Free;
  }

  lemma HadHereIff(level: nat, t: Table, size: nat, strategies: seq<Strategy>, i: nat)
    requires level >= 1 && size > 0 && size % MIN_PAGE_SIZE == 0 && Valid(level, t) && Tidy(level, t)
    requires !PassedDown(level, size) && |strategies| > 0
    ensures CanBeHad(level, t, size, strategies, SlotAddr(level, i))
       <==> Vacant(level, t, size, strategies, SlotAddr(level, i))
  {
    hide PageSize, Granted, TooFull, RangeFree, Valid, Tidy, SlotAddr, OffsetGranted, CanBeHad;
    var addr := SlotAddr(level, i);
    SlotsOfRun(level, size, i);
    HadHere(level, t, size, strategies, i);
    OffsetIsAddress(level, t, size, strategies, i);
    if addr + size <= Span(level) {
      SlotAligned(level, i);
      GrantedIff(level, t, addr, size);
    } else if CanBeHad(level, t, size, strategies, addr) {
      HadInTable(level, t, size, strategies, i, 0);
    }
  }

  lemma SlotAligned(level: nat, i: nat)
    ensures SlotAddr(level, i) % MIN_PAGE_SIZE == 0
  {
    hide PageSize;
    AlignedSum(i, PageSize(level), 0, MIN_PAGE_SIZE);
  }

  lemma VacantAtStart(level: nat, t: Table, size: nat, strategies: seq<Strategy>, i: nat, o: nat)
    requires Vacant(level, t, size, strategies, SlotAddr(level, i) + o) && !PassedDown(level, size)
    requires o < PageSize(level)
    ensures o == 0
  {
    hide PageSize, RangeFree, TooFull;
    SlotOffset(i, o, PageSize(level));
  }

  /** In a tidy table a range can be had exactly if it is vacant. */
  lemma {:induction false} HadIff(level: nat, t: Table, size: nat, strategies: seq<Strategy>, i: nat, o: nat)
    requires level >= 1 && size > 0 && size % MIN_PAGE_SIZE == 0 && Valid(level, t) && Tidy(level, t)
    requires o < PageSize(level) && |strategies| > 0
    ensures CanBeHad(level, t, size, strategies, SlotAddr(level, i) + o)
       <==> Vacant(level, t, size, strategies, SlotAddr(level, i) + o)
    decreases level
  {
    hide PageSize, Get, RangeFree, SlotFree, Valid, Trimmed, CodesExact, SlotAddr, CanBeHad, Vacant, SlotView, ViewAt;
    var addr := SlotAddr(level, i) + o;
    if !PassedDown(level, size) {
      if CanBeHad(level, t, size, strategies, addr) {
        HadAtStart(level, t, size, strategies, i, o);
      }
      if Vacant(level, t, size, strategies, addr) {
        VacantAtStart(level, t, size, strategies, i, o);
      }
      HadHereIff(level, t, size, strategies, i);
    } else {
      HadBelow(level, t, size, strategies, i, o);
      VacantBelow(level, t, size, strategies, i, o);
      Sized(level, t);
      if i < NPAGES && Get(t.bitmap, i) < FULL {
        HadBelowIff(level, t, size, strategies, i, o);
      } else if i < NPAGES {
        FullNotFree(level, t, i, o, size);
      }
    }
  }

  lemma {:induction false} HadBelowIff(level: nat, t: Table, size: nat, strategies: seq<Strategy>, i: nat, o: nat)
    requires PassedDown(level, size) && size > 0 && size % MIN_PAGE_SIZE == 0 && Valid(level, t) && Tidy(level, t)
    requires o < PageSize(level) && |strategies| > 0 && i < NPAGES && Get(t.bitmap, i) < FULL
    ensures CanBeHad(level, t, size, strategies, SlotAddr(level, i) + o)
       <==> Vacant(level, t, size, strategies, SlotAddr(level, i) + o)
    decreases level, 0
  {
    hide PageSize, Get, RangeFree, SlotFree, Valid, Trimmed, CodesExact, SlotAddr, CanBeHad, Vacant, SlotView, ViewAt;
    var addr := SlotAddr(level, i) + o;
    Sized(level, t);
    HadBelow(level, t, size, strategies, i, o);
    VacantBelow(level, t, size, strategies, i, o);
    EnterableBelow(level, t, i);
    SubOfView(level, t, i);
    SubTidy(level, t, i);
    EmptyIsFree(level, t, i);
    var j, q := InSlot(level - 1, o);
    var below := NextLevelDown(strategies);
    HadIff(level - 1, SubOf(t, i), size, below, j, q);
    if CanBeHad(level, t, size, strategies, addr) {
      HadInTable(level, t, size, strategies, i, o);
      RangeInSub(level, t, i, SubOf(t, i), o, size);
      VacantIsFree(level - 1, SubOf(t, i), size, below, o);
    }
  }

  lemma VacantIsFree(level: nat, t: Table, size: nat, strategies: seq<Strategy>, addr: nat)
    requires Vacant(level, t, size, strategies, addr)
    ensures RangeFree(level, t, addr, size)
  {
    hide RangeFree, PageSize, TooFull, SlotFree;
  }

  // ---- What that means for users ----

  /** Searched from the end of the lower half, spread over the tables of level 3. */
  const USER_STACK: seq<Strategy> :=
    [Strategy(true, None, Some(255), false), Strategy(true, None, None, true), Strategy(true, None, None, false)]

  /** User stacks stay in the lower half of the address space. */
  lemma StackInLowerHalf(t: Table, size: nat, addr: nat)
    requires size > 0 && size % MIN_PAGE_SIZE == 0 && Fits(4, t, size, USER_STACK, addr)
    ensures addr + size <= VMEM_SIZE / 2
  {
    hide CanBeHad;
    var last := addr + size - 1;
    FitsInSpan(4, t, size, USER_STACK, addr);
    assert Reaches(4, size, 4);
    TopSlot(4, last);
    assert PageSize(2) == 0x20_0000 && PageSize(3) == 0x4000_0000 && PageSize(4) == 0x80_0000_0000;
  }

  lemma NotInFirst(level: nat, v: nat)
    requires level > 1 && SlotOf(level - 1, v) >= 1
    ensures v % PageSize(level) >= PageSize(level - 1)
  {
    hide PageSize, SlotOf;
    SlotBelow(level, level - 1, v);
    if v % PageSize(level) < PageSize(level - 1) {
      FirstSlot(level - 1, v % PageSize(level));
    }
  }

  lemma FirstSlot(l: nat, o: nat)
    requires o < PageSize(l)
    ensures SlotOf(l, o) == 0
  {
    hide PageSize;
    SlotOffset(0, o, PageSize(l));
  }

  /** A user heap of less than 512 GiB leaves the first GiB of its top-level page alone. */
  lemma HeapSkipsFirst(t: Table, size: nat, addr: nat, v: nat)
    requires 0 < size < PageSize(4) && size % MIN_PAGE_SIZE == 0 && Fits(4, t, size, USER_HEAP, addr)
    requires addr <= v < addr + size
    ensures v % PageSize(4) >= PageSize(3)
  {
    hide CanBeHad, Fits, AdmittedRange, SlotOf;
    assert Reaches(4, size, 3);
    EveryAddress(4, t, size, USER_HEAP, addr, v, 3);
    NotInFirst(4, v);
  }
}
