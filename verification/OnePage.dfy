/** Requests for a single page: which addresses the strategies admit, and when none of them is left. */
module OnePage {
  import opened Options
  import opened Layout
  import opened Availability
  import opened PageTables
  import opened Allocations
  import opened Slots
  import opened Strategies
  import opened Staging
  import opened Trimming
  import opened CodeMeaning
  import opened Finding

  /** The strategies allow a page at address `v`, at this level and at every level below. */
  ghost predicate Admitted(level: nat, strategies: seq<Strategy>, v: nat)
    decreases level
  {
    && |strategies| > 0 && WindowDefined(level, MIN_PAGE_SIZE, strategies[0])
    && MinPage(strategies[0]) <= v / PageSize(level) < MaxPage(level, MIN_PAGE_SIZE, strategies[0])
    && AdmittedBelow(level, NextLevelDown(strategies), v % PageSize(level))
  }

  ghost predicate AdmittedBelow(level: nat, below: seq<Strategy>, o: nat)
    decreases level, 0
  {
    level > 1 ==> Admitted(level - 1, below, o)
  }

  ghost predicate NoSpread(strategies: seq<Strategy>)
  {
    forall k :: 0 <= k < |strategies| ==> !strategies[k].spreadMode
  }

  /** Every address that is admitted in slot `i` is in use. */
  ghost predicate SlotExhausted(level: nat, t: Table, i: nat, below: seq<Strategy>)
  {
    forall o: nat :: o < PageSize(level) && AdmittedBelow(level, below, o) ==> SlotView(level, t, i, o) != Free
  }

  /** Every address that is admitted is in use. */
  ghost predicate Exhausted(level: nat, t: Table, strategies: seq<Strategy>)
  {
    forall v: nat :: v < Span(level) && Admitted(level, strategies, v) ==> ViewAt(level, t, v) != Free
  }

  /** Where nothing fits nothing is admitted. */
  lemma {:induction false} AdmittedFits(level: nat, strategies: seq<Strategy>, v: nat)
    requires Admitted(level, strategies, v)
    ensures FitsFresh(level, MIN_PAGE_SIZE, strategies)
    decreases level
  {
    if level > 1 {
      AdmittedFits(level - 1, NextLevelDown(strategies), v % PageSize(level));
    }
  }

  lemma NothingFits(level: nat, t: Table, strategies: seq<Strategy>)
    requires !FitsFresh(level, MIN_PAGE_SIZE, strategies)
    ensures Exhausted(level, t, strategies)
  {
    hide ViewAt, PageSize, Admitted;
    forall v: nat
      ensures !Admitted(level, strategies, v)
    {
      if Admitted(level, strategies, v) {
        AdmittedFits(level, strategies, v);
      }
    }
  }

  lemma FullExhausted(level: nat, t: Table, i: nat, below: seq<Strategy>)
    requires Valid(level, t) && CodesExact(level, t) && i < NPAGES && Get(t.bitmap, i) == FULL
    ensures SlotExhausted(level, t, i, below)
  {
    hide SlotView, PageSize, Valid, CodesExact, Get, AdmittedBelow;
    FullSlot(level, t, i);
    forall o: nat | o < PageSize(level)
      ensures SlotView(level, t, i, o) != Free
    {
    }
  }

  lemma SubExhausted(level: nat, t: Table, i: nat, s: Table, below: seq<Strategy>)
    requires level > 1 && Exhausted(level - 1, s, below)
    requires forall o: nat :: SlotView(level, t, i, o) == ViewAt(level - 1, s, o)
    ensures SlotExhausted(level, t, i, below)
  {
    hide SlotView, ViewAt, PageSize, Admitted;
    SpanBelow(level);
    forall o: nat | o < PageSize(level) && AdmittedBelow(level, below, o)
      ensures SlotView(level, t, i, o) != Free
    {
      assert ViewAt(level - 1, s, o) != Free;
    }
  }

  /** A page of the lowest level. */
  lemma PageExhausted(t: Table, i: nat, below: seq<Strategy>)
    requires Valid(1, t) && i < NPAGES && !Clear(t, i, 1)
    ensures SlotExhausted(1, t, i, below)
  {
    assert SlotValid(1, t, i);
  }

  lemma AllExhausted(level: nat, t: Table, strategies: seq<Strategy>)
    requires |strategies| > 0 && WindowDefined(level, MIN_PAGE_SIZE, strategies[0])
    requires forall i: nat :: MinPage(strategies[0]) <= i < MaxPage(level, MIN_PAGE_SIZE, strategies[0]) ==>
               SlotExhausted(level, t, i, NextLevelDown(strategies))
    ensures Exhausted(level, t, strategies)
  {
    hide SlotView, PageSize, MaxPage, AdmittedBelow;
    forall v: nat | v < Span(level) && Admitted(level, strategies, v)
      ensures ViewAt(level, t, v) != Free
    {
      DivBounds(v, PageSize(level));
      assert SlotExhausted(level, t, v / PageSize(level), NextLevelDown(strategies));
    }
  }

  /** An admitted page that was free. */
  lemma NotExhausted(huge: nat, level: nat, t: Table, t': Table, a: Alloc, strategies: seq<Strategy>)
    requires Allocated(huge, level, t, t', a, MIN_PAGE_SIZE) && Admitted(level, strategies, StartAddr(a))
    ensures !Exhausted(level, t, strategies)
  {
    hide ViewAt, PageSize, Admitted, Shape, Backed;
    ShapeBounds(huge, level, a);
    assert Covers(a, StartAddr(a));
    assert ViewAt(level, t, StartAddr(a)) == Free;
  }

  /** What a search for one page, without spread mode, relies on. */
  ghost predicate Plain(level: nat, t: Table, size: nat, strategies: seq<Strategy>)
  {
    size == MIN_PAGE_SIZE && NoSpread(strategies) && Valid(level, t) && CodesExact(level, t)
  }

  lemma PlainBelow(level: nat, t: Table, i: nat, size: nat, strategies: seq<Strategy>)
    requires level > 1 && Plain(level, t, size, strategies) && WellSized(t) && i < NPAGES && Enterable(t, i)
    ensures Plain(level - 1, SubOf(t, i), size, NextLevelDown(strategies))
  {
    hide Valid, CodesExact;
    SubTidy(level, t, i);
    SubOfView(level, t, i);
  }

  /** A page at the start of its slot's part. */
  lemma AdmittedAt(level: nat, strategies: seq<Strategy>, i: nat, o: nat)
    requires |strategies| > 0 && WindowDefined(level, MIN_PAGE_SIZE, strategies[0])
    requires MinPage(strategies[0]) <= i < MaxPage(level, MIN_PAGE_SIZE, strategies[0])
    requires o < PageSize(level) && AdmittedBelow(level, NextLevelDown(strategies), o)
    ensures Admitted(level, strategies, SlotAddr(level, i) + o)
  {
    hide PageSize, MaxPage, AdmittedBelow;
    SlotOffset(i, o, PageSize(level));
  }

  /** Slot `i` was tried in vain, although a fresh sub-table would have had room. */
  ghost predicate InVain(level: nat, t: Table, size: nat, strategies: seq<Strategy>, i: nat)
  {
    && !OffsetGranted(level, t, size, strategies, i)
    && (Valid(level, t) ==> !Clear(t, i, SearchPages(level, size)))
    && (Plain(level, t, size, strategies) ==> SlotExhausted(level, t, i, NextLevelDown(strategies)))
  }

  lemma AllInVain(level: nat, t: Table, size: nat, strategies: seq<Strategy>)
    requires |strategies| > 0 && WindowDefined(level, size, strategies[0])
    requires forall i: nat :: MinPage(strategies[0]) <= i < MaxPage(level, size, strategies[0]) ==>
               InVain(level, t, size, strategies, i)
    ensures Plain(level, t, size, strategies) ==> Exhausted(level, t, strategies)
  {
    hide MaxPage, SlotExhausted, Exhausted, SearchPages, Clear, Valid, CodesExact;
    if Plain(level, t, size, strategies) {
      forall i: nat | MinPage(strategies[0]) <= i < MaxPage(level, size, strategies[0])
        ensures SlotExhausted(level, t, i, NextLevelDown(strategies))
      {
        assert InVain(level, t, size, strategies, i);
      }
      AllExhausted(level, t, strategies);
    }
  }

  /** One slot at the lowest level. */
  lemma OnePageHere(t: Table, r: Option<Alloc>, strategies: seq<Strategy>, i: nat)
    requires Valid(1, t) && i < NPAGES && |strategies| > 0 && WindowDefined(1, MIN_PAGE_SIZE, strategies[0])
    requires MinPage(strategies[0]) <= i < MaxPage(1, MIN_PAGE_SIZE, strategies[0])
    requires r.Some? ==> StartAddr(r.value) == SlotAddr(1, i)
    requires r.None? ==> !Clear(t, i, SearchPages(1, MIN_PAGE_SIZE))
    ensures r.Some? ==> Admitted(1, strategies, StartAddr(r.value))
    ensures r.None? ==> SlotExhausted(1, t, i, NextLevelDown(strategies))
  {
    hide Valid, SlotExhausted, MaxPage, Clear;
    assert SearchPages(1, MIN_PAGE_SIZE) == 1;
    if r.Some? {
      AdmittedAt(1, strategies, i, 0);
    } else {
      PageExhausted(t, i, NextLevelDown(strategies));
    }
  }
}
