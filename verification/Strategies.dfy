/** Allocation strategies: one per level on the way down, the last one repeated. */
module Strategies {
  import opened Options
  import opened Layout

  datatype Strategy = Strategy(reverseOrder: bool, minPage: Option<nat>, maxPage: Option<nat>, spreadMode: bool)

  const NEW_DEFAULT: Strategy := Strategy(false, None, None, false)

  /** No restrictions at any level. */
  const ALLOCATION_DEFAULT: seq<Strategy> := [NEW_DEFAULT]

  function NextLevelDown(strategies: seq<Strategy>): seq<Strategy>
  {
    if |strategies| > 1 then strategies[1..] else strategies
  }

  /** Whole pages of a request at a level; only a level with sub-tables can leave a remainder. */
  function Pages(level: nat, size: nat): nat
  {
    if level > 1 then size / PageSize(level) else (size + PageSize(level) - 1) / PageSize(level)
  }

  function Remainder(level: nat, size: nat): nat
  {
    if level > 1 then size % PageSize(level) else 0
  }

  /** Consecutive slots the search has to find. */
  function SearchPages(level: nat, size: nat): nat
  {
    Pages(level, size) + if Remainder(level, size) > 0 then 1 else 0
  }

  function MinPage(s: Strategy): nat
  {
    if s.minPage.Some? then s.minPage.value else 0
  }

  /** The search computes the end of its window without running below zero. */
  predicate WindowDefined(level: nat, size: nat, s: Strategy)
  {
    && SearchPages(level, size) <= NPAGES
    && (s.maxPage.Some? ==> SearchPages(level, size) <= s.maxPage.value + 1)
  }

  function MaxPage(level: nat, size: nat, s: Strategy): nat
    requires WindowDefined(level, size, s)
  {
    var n := SearchPages(level, size);
    var all := NPAGES - n + 1;
    if s.maxPage.Some? && s.maxPage.value + 1 - n + 1 < all then s.maxPage.value + 1 - n + 1 else all
  }

  /** Slot `i` lies within the limits of the strategy. */
  predicate InSearch(level: nat, size: nat, strategy: Strategy, i: nat)
    requires WindowDefined(level, size, strategy)
  {
    MinPage(strategy) <= i < MaxPage(level, size, strategy)
  }

  /** Slot `o` comes before `offset` in the search. */
  predicate Earlier(strategy: Strategy, o: nat, offset: nat)
  {
    if strategy.reverseOrder then offset < o else o < offset
  }

  /** The request is left to a sub-table. */
  predicate PassedDown(level: nat, size: nat)
  {
    level > 1 && size < PageSize(level)
  }

  /** The window is defined here and on every level the request is passed down to. */
  ghost predicate Windows(level: nat, size: nat, strategies: seq<Strategy>)
    decreases level
  {
    && |strategies| > 0
    && WindowDefined(level, size, strategies[0])
    && (PassedDown(level, size) && MinPage(strategies[0]) < MaxPage(level, size, strategies[0]) ==>
          Windows(level - 1, size, NextLevelDown(strategies)))
  }

  /** A fresh table has room for the request: no window on the way down is empty. */
  ghost predicate FitsFresh(level: nat, size: nat, strategies: seq<Strategy>)
    decreases level
  {
    && |strategies| > 0
    && WindowDefined(level, size, strategies[0])
    && MinPage(strategies[0]) < MaxPage(level, size, strategies[0])
    && (PassedDown(level, size) ==> FitsFresh(level - 1, size, NextLevelDown(strategies)))
  }

  /** The request would be passed down to sub-tables of which not even a fresh one has room. */
  ghost predicate Hopeless(level: nat, size: nat, strategies: seq<Strategy>)
  {
    PassedDown(level, size) && !FitsFresh(level - 1, size, NextLevelDown(strategies))
  }

  /** A search only looks at slots of the table. */
  lemma InWindow(level: nat, size: nat, strategy: Strategy)
    requires size > 0 && WindowDefined(level, size, strategy)
    ensures SearchPages(level, size) >= 1
    ensures MaxPage(level, size, strategy) + SearchPages(level, size) <= NPAGES + 1
  {
  }

  lemma FitsOrHopeless(level: nat, size: nat, strategies: seq<Strategy>)
    requires |strategies| > 0 && WindowDefined(level, size, strategies[0])
    requires MinPage(strategies[0]) < MaxPage(level, size, strategies[0])
    ensures FitsFresh(level, size, strategies) <==> !Hopeless(level, size, strategies)
  {
  }

  lemma HopelessFits(level: nat, size: nat, strategies: seq<Strategy>)
    requires Hopeless(level, size, strategies)
    ensures !FitsFresh(level, size, strategies)
  {
  }

  lemma {:induction false} FitsWindows(level: nat, size: nat, strategies: seq<Strategy>)
    requires FitsFresh(level, size, strategies)
    ensures Windows(level, size, strategies) && !Hopeless(level, size, strategies)
    decreases level
  {
    if PassedDown(level, size) {
      FitsWindows(level - 1, size, NextLevelDown(strategies));
    }
  }

  lemma WholePages(level: nat, size: nat)
    requires level >= 1 && size % MIN_PAGE_SIZE == 0
    ensures size == Pages(level, size) * PageSize(level) + Remainder(level, size)
    ensures Remainder(level, size) < PageSize(level)
    ensures Remainder(level, size) % MIN_PAGE_SIZE == 0
    ensures Pages(level, size) == 0 <==> size < PageSize(level)
    ensures Pages(level, size) == 0 ==> Remainder(level, size) == size
    ensures level == 1 ==> Remainder(level, size) == 0
  {
    hide PageSize;
    if level > 1 {
      var d := PageSize(level);
      DivBounds(size, d);
      SlotInTable(size, d, 1);
      RemainderAligned(size, d, MIN_PAGE_SIZE);
    } else {
      OneLevel();
    }
  }

  lemma OneLevel()
    ensures forall level :: 0 <= level <= 1 ==> PageSize(level) == MIN_PAGE_SIZE
  {
  }

  /** A single page is passed down to the lowest level. */
  lemma LowestLevel(level: nat)
    requires level >= 1 && Pages(level, MIN_PAGE_SIZE) >= 1
    ensures level == 1
  {
  }

  /** The default strategies never refuse what fits into an empty table. */
  lemma {:induction false} DefaultFits(level: nat, size: nat)
    requires level >= 1 && size % MIN_PAGE_SIZE == 0 && size <= Span(level)
    ensures FitsFresh(level, size, ALLOCATION_DEFAULT)
    decreases level
  {
    WholePages(level, size);
    var d, p := PageSize(level), Pages(level, size);
    if p > NPAGES {
      MulStep(NPAGES, p, d);
    } else if p == NPAGES {
      assert Remainder(level, size) == 0;
    }
    if level > 1 && size < d {
      SpanBelow(level);
      DefaultFits(level - 1, size);
    }
  }

  /** The heap strategy skips the first page at level 3. A request for less than a top-level page fits
      a fresh sub-table exactly when it leaves that page free. */
  const USER_HEAP: seq<Strategy> := [NEW_DEFAULT, NEW_DEFAULT.(minPage := Some(1)), NEW_DEFAULT]

  lemma UserHeapLimit(size: nat)
    requires 0 < size < PageSize(4) && size % MIN_PAGE_SIZE == 0
    ensures Windows(4, size, USER_HEAP)
    ensures Hopeless(4, size, USER_HEAP) <==> size > 511 * PageSize(3)
  {
    assert PageSize(2) == 0x20_0000;
    assert PageSize(3) == 0x4000_0000;
    assert PageSize(4) == 0x80_0000_0000;
    WholePages(3, size);
    assert NextLevelDown(USER_HEAP) == [NEW_DEFAULT.(minPage := Some(1)), NEW_DEFAULT];
    assert NextLevelDown(NextLevelDown(USER_HEAP)) == ALLOCATION_DEFAULT;
    if size < PageSize(3) {
      DefaultFits(2, size);
      FitsWindows(2, size, ALLOCATION_DEFAULT);
    }
  }
}
