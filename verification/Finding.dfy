/** Where a search succeeds: exactly which requests `allocate` grants, and at which address. */
module Finding {
  import opened Layout
  import opened Availability
  import opened PageTables
  import opened Slots
  import opened Strategies
  import opened Granting

  /** An attempt from slot `offset` on succeeds. */
  ghost predicate OffsetGranted(level: nat, t: Table, size: nat, strategies: seq<Strategy>, offset: nat)
    decreases level, 0
  {
    && |strategies| > 0
    && if PassedDown(level, size) then
         && WellSized(t) && offset < NPAGES && Get(t.bitmap, offset) < FULL
         && (strategies[0].spreadMode ==> Get(t.bitmap, offset) == EMPTY)
         && AllocGranted(level - 1, SubOf(t, offset), size, NextLevelDown(strategies))
       else PartsGranted(level, t, offset, offset + Pages(level, size), 0, 0, Remainder(level, size))
  }

  /** Some attempt within the limits of the strategy succeeds. */
  ghost predicate AllocGranted(level: nat, t: Table, size: nat, strategies: seq<Strategy>)
    decreases level, 1
  {
    && |strategies| > 0 && WindowDefined(level, size, strategies[0])
    && exists offset: nat ::
         InSearch(level, size, strategies[0], offset) && OffsetGranted(level, t, size, strategies, offset)
  }

  /** The first attempt in search order that succeeds. */
  ghost predicate FirstGranted(level: nat, t: Table, size: nat, strategies: seq<Strategy>, offset: nat)
  {
    && |strategies| > 0 && WindowDefined(level, size, strategies[0])
    && InSearch(level, size, strategies[0], offset) && OffsetGranted(level, t, size, strategies, offset)
    && forall o: nat :: InSearch(level, size, strategies[0], o) && Earlier(strategies[0], o, offset) ==>
         !OffsetGranted(level, t, size, strategies, o)
  }

  /** An attempt from slot `offset` on leads to `addr`. */
  ghost predicate LeadsTo(level: nat, t: Table, size: nat, strategies: seq<Strategy>, offset: nat, addr: nat)
    decreases level, 0
  {
    if PassedDown(level, size) then
      && offset < |t.subs| && SlotAddr(level, offset) <= addr
      && PlacedAt(level - 1, SubOf(t, offset), size, NextLevelDown(strategies), addr - SlotAddr(level, offset))
    else addr == SlotAddr(level, offset)
  }

  /** The search ends at `addr`: at every level it takes the first slot at which it succeeds. */
  ghost predicate PlacedAt(level: nat, t: Table, size: nat, strategies: seq<Strategy>, addr: nat)
    decreases level, 1
  {
    exists offset: nat ::
      FirstGranted(level, t, size, strategies, offset) && LeadsTo(level, t, size, strategies, offset, addr)
  }

  /** There is only one such address. */
  lemma {:induction false} PlacedOnce(level: nat, t: Table, size: nat, strategies: seq<Strategy>, x: nat, y: nat)
    requires PlacedAt(level, t, size, strategies, x) && PlacedAt(level, t, size, strategies, y)
    ensures x == y
    decreases level
  {
    hide InSearch, SlotAddr, OffsetGranted, PageSize;
    var i: nat :| FirstGranted(level, t, size, strategies, i) && LeadsTo(level, t, size, strategies, i, x);
    var j: nat :| FirstGranted(level, t, size, strategies, j) && LeadsTo(level, t, size, strategies, j, y);
    assert i == j by {
      assert !Earlier(strategies[0], i, j) && !Earlier(strategies[0], j, i);
    }
    if PassedDown(level, size) {
      var at := SlotAddr(level, i);
      PlacedOnce(level - 1, SubOf(t, i), size, NextLevelDown(strategies), x - at, y - at);
    }
  }

  /** Nothing is granted that has no room in fresh sub-tables. */
  lemma {:induction false} GrantedFits(level: nat, t: Table, size: nat, strategies: seq<Strategy>)
    requires AllocGranted(level, t, size, strategies)
    ensures FitsFresh(level, size, strategies)
    decreases level
  {
    hide PartsGranted, Get, PageSize, Pages, Remainder, MaxPage;
    if PassedDown(level, size) {
      var offset: nat :| && InSearch(level, size, strategies[0], offset)
                         && OffsetGranted(level, t, size, strategies, offset);
      GrantedFits(level - 1, SubOf(t, offset), size, NextLevelDown(strategies));
    }
  }

  /** A request of a slot or more is granted at a slot exactly if `allocate_at` would grant it there. */
  lemma OffsetIsAddress(level: nat, t: Table, size: nat, strategies: seq<Strategy>, offset: nat)
    requires level >= 1 && size > 0 && size % MIN_PAGE_SIZE == 0 && !PassedDown(level, size) && |strategies| > 0
    ensures OffsetGranted(level, t, size, strategies, offset) <==> Granted(level, t, SlotAddr(level, offset), size)
  {
    hide PageSize, PartsGranted, Pages, Remainder;
    SlotOffset(offset, 0, PageSize(level));
    OneLevel();
  }
}
