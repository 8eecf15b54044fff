/** Requests that are passed down to sub-tables without room for them, and the fresh sub-tables that such
    a request leaves in slots whose codes still say that they are empty. */
module Leftovers {
  import opened Options
  import opened Layout
  import opened Availability
  import opened PageTables
  import opened Slots
  import opened Strategies
  import opened Staging
  import opened Trimming

  /** Trying slot `i` leaves a sub-table behind, there or further down. */
  ghost predicate LittersSlot(level: nat, t: Table, i: nat, size: nat, strategies: seq<Strategy>)
    decreases level, 0
  {
    && level > 1 && i < NPAGES && i < |t.subs| && |strategies| > 0
    && (Get(t.bitmap, i) == EMPTY
        || (!strategies[0].spreadMode && Get(t.bitmap, i) < FULL && t.subs[i].Some?
            && Litters(level - 1, t.subs[i].value, size, NextLevelDown(strategies))))
  }

  /** The request is refused and leaves a sub-table behind. */
  ghost predicate Litters(level: nat, t: Table, size: nat, strategies: seq<Strategy>)
    decreases level, 1
  {
    && Hopeless(level, size, strategies)
    && |strategies| > 0 && WindowDefined(level, size, strategies[0])
    && exists i: nat :: MinPage(strategies[0]) <= i < MaxPage(level, size, strategies[0])
                   && LittersSlot(level, t, i, size, strategies)
  }

  // ---- Tables with such slots ----

  ghost predicate LooseSlot(level: nat, t: Table, i: nat)
    requires WellSized(t) && i < NPAGES
    decreases level, 0
  {
    match t.subs[i]
    case None => Get(t.bitmap, i) < FULL ==> t.entries[i].Unused?
    case Some(s) => level > 1 && t.entries[i].Link? && Loose(level - 1, s)
  }

  /** A table whose codes cannot be relied on where it has sub-tables. */
  ghost predicate Loose(level: nat, t: Table)
    decreases level, 1
  {
    && level >= 1
    && WellSized(t)
    && forall i :: 0 <= i < NPAGES ==> LooseSlot(level, t, i)
  }

  lemma {:induction false} ValidLoose(level: nat, t: Table)
    requires Valid(level, t)
    ensures Loose(level, t)
    decreases level
  {
    hide Below, Get;
    forall i | 0 <= i < NPAGES
      ensures LooseSlot(level, t, i)
    {
      assert SlotValid(level, t, i);
      if t.subs[i].Some? {
        ValidLoose(level - 1, t.subs[i].value);
      }
    }
  }

  /** What entering slot `i` and leaving its sub-table as `s`, without a refresh, makes of a table. */
  function Entered(t: Table, i: nat, s: Table): (t': Table)
    requires i < |t.entries| && i < |t.subs|
  {
    SetSub(GetSubtableAlways(t, i), i, Some(s))
  }

  lemma EnteredLoose(level: nat, t: Table, i: nat, s: Table)
    requires level > 1 && Loose(level, t) && i < NPAGES && WellSized(t) && Get(t.bitmap, i) < FULL
    requires Loose(level - 1, s) && SameView(level - 1, SubOf(t, i), s)
    ensures var t' := Entered(t, i, s);
            Loose(level, t') && SameExcept(t, t', i) && SameView(level, t, t') && t'.bitmap == t.bitmap
  {
    hide Get, PageSize;
    var t' := Entered(t, i, s);
    assert LooseSlot(level, t, i);
    forall j | 0 <= j < NPAGES
      ensures LooseSlot(level, t', j)
    {
      assert LooseSlot(level, t, j);
    }
    hide Loose, LooseSlot;
    NewTableValid(level - 1);
    hide ViewAt;
    forall j, o | 0 <= j < NPAGES && 0 <= o < PageSize(level)
      ensures SlotView(level, t, j, o) == SlotView(level, t', j, o)
    {
      assert ViewAt(level - 1, SubOf(t, i), o) == ViewAt(level - 1, s, o);
    }
    hide SlotView;
    SlotsToView(level, t, t');
  }

  lemma SubLoose(level: nat, t: Table, i: nat)
    requires level > 1 && Loose(level, t) && i < NPAGES
    ensures WellSized(t) && Loose(level - 1, SubOf(t, i))
  {
    assert LooseSlot(level, t, i);
    NewTableValid(level - 1);
    ValidLoose(level - 1, NewTable());
  }

  /** What a hopeless request makes of slot `i` by entering it. */
  ghost predicate InsideTried(level: nat, t: Table, t': Table, i: nat, size: nat, below: seq<Strategy>)
  {
    && level > 1 && i < NPAGES
    && Loose(level, t') && SameExcept(t, t', i) && SameView(level, t, t') && t'.bitmap == t.bitmap
    && (Get(t.bitmap, i) == FULL ==> t' == t)
    && (Get(t.bitmap, i) == EMPTY ==> t'.subs[i].Some?)
    && (Get(t.bitmap, i) == EMPTY && Valid(level - 1, SubOf(t, i)) && !Litters(level - 1, SubOf(t, i), size, below) ==>
          t'.subs[i] == Some(SubOf(t, i)))
    && (EMPTY < Get(t.bitmap, i) < FULL && SlotValid(level, t, i) ==>
          if Litters(level - 1, SubOf(t, i), size, below)
          then t'.subs[i].Some? && !Valid(level - 1, t'.subs[i].value)
          else t' == t)
  }

  /** Entering slot `i` leaves a sub-table behind. */
  ghost predicate InsideLitters(level: nat, t: Table, i: nat, size: nat, below: seq<Strategy>)
  {
    && level > 1 && i < NPAGES && i < |t.subs| && !FitsFresh(level - 1, size, below)
    && (Get(t.bitmap, i) == EMPTY || (Get(t.bitmap, i) < FULL && Litters(level - 1, SubOf(t, i), size, below)))
  }

  lemma InsideRefused(level: nat, t: Table, i: nat, s: Table, size: nat, below: seq<Strategy>)
    requires level > 1 && Loose(level, t) && i < NPAGES && WellSized(t) && Get(t.bitmap, i) < FULL
    requires Loose(level - 1, s) && SameView(level - 1, SubOf(t, i), s)
    requires Valid(level - 1, SubOf(t, i)) ==> (Valid(level - 1, s) <==> !Litters(level - 1, SubOf(t, i), size, below))
    requires Valid(level - 1, SubOf(t, i)) && Valid(level - 1, s) ==> s == SubOf(t, i)
    ensures InsideTried(level, t, Entered(t, i, s), i, size, below)
  {
    hide Get, PageSize, Litters, Loose, ViewAt, SlotView, Below;
    EnteredLoose(level, t, i, s);
    if EMPTY < Get(t.bitmap, i) && SlotValid(level, t, i) && !Litters(level - 1, SubOf(t, i), size, below) {
      assert Entered(t, i, s) == t;
    }
  }

  lemma InsideFull(level: nat, t: Table, i: nat, size: nat, below: seq<Strategy>)
    requires level > 1 && Loose(level, t) && i < NPAGES && Get(t.bitmap, i) == FULL
    ensures InsideTried(level, t, t, i, size, below)
  {
  }

  lemma FitsNoLitter(level: nat, t: Table, size: nat, strategies: seq<Strategy>)
    requires FitsFresh(level, size, strategies)
    ensures !Litters(level, t, size, strategies)
  {
    FitsWindows(level, size, strategies);
  }

  lemma NoLitter(level: nat, t: Table, size: nat, strategies: seq<Strategy>)
    ensures Litters(level, t, size, strategies) ==> Hopeless(level, size, strategies)
    ensures StaysTidy(level, t, t) && NoNewFlags(t, t)
  {
    hide Hopeless, Trimmed, CodesExact;
  }

  /** The invariant survives exactly where nothing is left behind. */
  lemma InsideValid(level: nat, t: Table, t': Table, i: nat, size: nat, below: seq<Strategy>)
    requires Valid(level, t) && InsideTried(level, t, t', i, size, below) && !FitsFresh(level - 1, size, below)
    ensures Valid(level, t') <==> !InsideLitters(level, t, i, size, below)
    ensures Valid(level, t') ==> t' == t
  {
    hide Get, PageSize, Litters, Loose, ViewAt, SlotView, Below, FitsFresh;
    assert SlotValid(level, t, i);
    if InsideLitters(level, t, i, size, below) {
      assert !SlotValid(level, t', i);
    }
  }

  // ---- A whole search ----

  /** What a hopeless request makes of slot `i` by trying it. */
  ghost predicate SlotTried(level: nat, t: Table, t': Table, i: nat, size: nat, strategies: seq<Strategy>)
  {
    && |strategies| > 0
    && if i < NPAGES && strategies[0].spreadMode && Get(t.bitmap, i) != EMPTY then t' == t
       else InsideTried(level, t, t', i, size, NextLevelDown(strategies))
  }

  /** Slot `j` after it was tried. */
  ghost predicate SlotAfter(level: nat, t: Table, t': Table, j: nat, size: nat, strategies: seq<Strategy>)
    requires WellSized(t) && WellSized(t') && j < NPAGES && level > 1
  {
    if LittersSlot(level, t, j, size, strategies) then
      && t'.subs[j].Some?
      && if Get(t.bitmap, j) != EMPTY then !Valid(level - 1, t'.subs[j].value)
         else !Litters(level - 1, SubOf(t, j), size, NextLevelDown(strategies)) ==> t'.subs[j] == Some(SubOf(t, j))
    else t'.entries[j] == t.entries[j] && t'.subs[j] == t.subs[j]
  }

  /** A hopeless search that has tried the slots in `done`. */
  ghost predicate Searched(level: nat, t: Table, t': Table, size: nat, strategies: seq<Strategy>, done: set<nat>)
  {
    && level > 1 && WellSized(t) && WellSized(t') && Loose(level, t') && SameView(level, t, t') && t'.bitmap == t.bitmap
    && (Valid(level, t) ==>
          forall j: nat :: j < NPAGES ==>
            if j in done then SlotAfter(level, t, t', j, size, strategies)
            else t'.entries[j] == t.entries[j] && t'.subs[j] == t.subs[j])
  }

  lemma SearchStart(level: nat, t: Table, size: nat, strategies: seq<Strategy>)
    requires level > 1 && Loose(level, t)
    ensures Searched(level, t, t, size, strategies, {})
  {
  }

  lemma SearchStep(level: nat, t: Table, t1: Table, t2: Table, i: nat, size: nat, strategies: seq<Strategy>,
                   done: set<nat>)
    requires Searched(level, t, t1, size, strategies, done) && SlotTried(level, t1, t2, i, size, strategies)
    requires i < NPAGES
    requires i !in done || strategies[0].spreadMode
    ensures Searched(level, t, t2, size, strategies, done + {i})
  {
    hide Get, PageSize, Litters, Loose, ViewAt, SlotView, Below, Valid, SlotValid;
    if Valid(level, t) {
      forall j: nat | j < NPAGES
        ensures if j in done + {i} then SlotAfter(level, t, t2, j, size, strategies)
                else t2.entries[j] == t.entries[j] && t2.subs[j] == t.subs[j]
      {
        if j != i {
          assert t2 == t1 || SameSlot(t1, t2, j);
        } else {
          SlotStep(level, t, t1, t2, i, size, strategies, done);
        }
      }
    }
  }

  lemma SlotStep(level: nat, t: Table, t1: Table, t2: Table, i: nat, size: nat, strategies: seq<Strategy>,
                 done: set<nat>)
    requires Searched(level, t, t1, size, strategies, done) && SlotTried(level, t1, t2, i, size, strategies)
    requires i < NPAGES
    requires i !in done || strategies[0].spreadMode
    requires Valid(level, t)
    ensures WellSized(t2) && SlotAfter(level, t, t2, i, size, strategies)
  {
    hide Get, PageSize, Litters, Loose, ViewAt, SlotView, Below;
    assert SlotValid(level, t, i);
    NewTableValid(level - 1);
    assert if i in done then SlotAfter(level, t, t1, i, size, strategies)
           else t1.entries[i] == t.entries[i] && t1.subs[i] == t.subs[i];
  }

  /** When every slot of the window was tried, the invariant holds exactly if nothing was left behind. */
  lemma SearchDone(level: nat, t: Table, t': Table, size: nat, strategies: seq<Strategy>, done: set<nat>)
    requires Searched(level, t, t', size, strategies, done) && Hopeless(level, size, strategies) && Valid(level, t)
    requires |strategies| > 0 && WindowDefined(level, size, strategies[0])
    requires forall i: nat :: i in done <==> MinPage(strategies[0]) <= i < MaxPage(level, size, strategies[0])
    ensures Valid(level, t') <==> !Litters(level, t, size, strategies)
    ensures Valid(level, t') ==> t' == t
  {
    hide Get, PageSize, Loose, ViewAt, SlotView, Below, Hopeless;
    if i: nat :| MinPage(strategies[0]) <= i < MaxPage(level, size, strategies[0])
                 && LittersSlot(level, t, i, size, strategies) {
      assert i in done && SlotAfter(level, t, t', i, size, strategies);
      assert !SlotValid(level, t', i);
    } else {
      forall j: nat | j < NPAGES
        ensures t'.entries[j] == t.entries[j] && t'.subs[j] == t.subs[j]
      {
        assert j in done ==> !LittersSlot(level, t, j, size, strategies);
      }
      assert t' == t;
    }
  }

  lemma SearchLoose(level: nat, t: Table, t': Table, size: nat, strategies: seq<Strategy>, done: set<nat>)
    ensures Searched(level, t, t', size, strategies, done) ==> Loose(level, t') && SameView(level, t, t')
  {
  }

  /** A hopeless request that leaves nothing behind met no empty slot. */
  lemma NoLitterClear(level: nat, t: Table, size: nat, strategies: seq<Strategy>)
    requires Valid(level, t) && size > 0 && Hopeless(level, size, strategies) && !Litters(level, t, size, strategies)
    requires |strategies| > 0 && WindowDefined(level, size, strategies[0])
    ensures forall o: nat :: MinPage(strategies[0]) <= o < MaxPage(level, size, strategies[0]) ==>
              !Clear(t, o, SearchPages(level, size))
  {
    assert level > 1;
    hide Get, PageSize, Hopeless, Valid, SearchPages;
    Sized(level, t);
    InWindow(level, size, strategies[0]);
    forall o: nat | MinPage(strategies[0]) <= o < MaxPage(level, size, strategies[0])
      ensures !Clear(t, o, SearchPages(level, size))
    {
      assert !LittersSlot(level, t, o, size, strategies);
    }
  }
}
