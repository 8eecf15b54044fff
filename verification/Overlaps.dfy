/** What the allocator does to a table whose slots are out of step with its bitmap, such as one that a refused
    request has left sub-tables in: whole slots are reserved over the sub-tables, which stay behind. */
module Overlaps {
  import opened Options
  import opened Layout
  import opened Entries
  import opened Availability
  import opened PageTables
  import opened Allocations
  import opened Slots
  import opened Strategies
  import opened Assembly
  import opened Staging

  /** The sub-tables are sound, whatever the slots say about them. */
  ghost predicate SubsValid(level: nat, t: Table)
  {
    && level >= 1 && WellSized(t)
    && forall i :: 0 <= i < NPAGES && t.subs[i].Some? ==> level > 1 && Valid(level - 1, t.subs[i].value)
  }

  /** The request reserves whole pages, or is left to a sub-table. */
  ghost predicate Direct(huge: nat, level: nat, size: nat, strategies: seq<Strategy>)
  {
    if PassedDown(level, size) then !Hopeless(level, size, strategies) else level <= huge && Remainder(level, size) == 0
  }

  lemma ValidSubs(level: nat, t: Table)
    requires Valid(level, t)
    ensures SubsValid(level, t)
  {
    Sized(level, t);
    forall i | 0 <= i < NPAGES && t.subs[i].Some?
      ensures level > 1 && Valid(level - 1, t.subs[i].value)
    {
      SlotSub(level, t, i);
    }
  }

  lemma SubOfSound(level: nat, t: Table, i: nat)
    requires level > 1 && SubsValid(level, t) && i < NPAGES
    ensures Valid(level - 1, SubOf(t, i))
  {
    NewTableValid(level - 1);
  }

  // ---- Whole pages ----

  function PageItems(level: nat, start: nat, n: nat): seq<Item>
  {
    seq(n, k requires 0 <= k < n => Page(start + k, SlotAddr(level, k)))
  }

  ghost predicate SlotReserved(t: Table, t': Table, i: nat)
    requires WellSized(t) && WellSized(t') && i < NPAGES
  {
    t'.entries[i] == AbsentEntry(RESERVED) && t'.subs[i] == t.subs[i] && Get(t'.bitmap, i) == AvailabilityOf(t', i)
  }

  /** The slots [start, end) are reserved, and no other slot changed. */
  ghost predicate RunReserved(t: Table, t': Table, start: nat, end: nat)
  {
    && WellSized(t) && WellSized(t') && start <= end <= NPAGES
    && (forall i :: start <= i < end ==> SlotReserved(t, t', i))
    && (forall j :: 0 <= j < NPAGES && !(start <= j < end) ==> SameSlot(t, t', j))
  }

  lemma RunExtended(level: nat, t: Table, t1: Table, t': Table, start: nat, idx: nat)
    requires idx < NPAGES && RunReserved(t, t1, start, idx) && SameExcept(t1, t', idx) && SlotReserved(t1, t', idx)
    ensures RunReserved(t, t', start, idx + 1)
    ensures PageItems(level, start, idx - start) + [Page(idx, SlotAddr(level, idx - start))]
         == PageItems(level, start, idx + 1 - start)
  {
    hide Get, SlotAddr, TableCode;
    assert SameSlot(t, t1, idx);
    forall i | start <= i < idx + 1
      ensures SlotReserved(t, t', i)
    {
      assert i == idx || (SameSlot(t1, t', i) && SlotReserved(t, t1, i));
    }
    forall j | 0 <= j < NPAGES && !(start <= j < idx + 1)
      ensures SameSlot(t, t', j)
    {
      assert SameSlot(t, t1, j) && SameSlot(t1, t', j);
    }
  }

  lemma ReservedHere(t: Table, i: nat)
    requires WellSized(t) && i < NPAGES
    ensures var t' := RefreshAvailability(SetEntry(t, i, AbsentEntry(RESERVED)), i);
            SameExcept(t, t', i) && SlotReserved(t, t', i)
  {
    var t0 := SetEntry(t, i, AbsentEntry(RESERVED));
    Refreshed(t0, i);
    hide Get, TableCode;
    forall j | 0 <= j < NPAGES && j != i
      ensures SameSlot(t, RefreshAvailability(t0, i), j)
    {
      assert SameSlot(t0, RefreshAvailability(t0, i), j);
    }
  }

  /** An allocation of whole pages and nothing else. */
  lemma BuiltPages(level: nat, start: nat, n: nat, a: Alloc)
    requires SortedByOffset(a.items)
    requires multiset(a.items) == multiset(Gathered(PageItems(level, start, n), [None, None]))
    ensures a.items == PageItems(level, start, n)
  {
    hide SortedByOffset, SlotAddr;
    var items := PageItems(level, start, n);
    GatheredTwo(items, None, None);
    forall j, k | 0 <= j < k < n
      ensures items[j].offset < items[k].offset
    {
      SlotAddrStep(level, j, k);
    }
    SortUnique(a.items, items);
  }

  /** The slots [start, start + n) were reserved as the pages of `a`. */
  ghost predicate PagesGot(level: nat, t: Table, t': Table, a: Alloc, start: nat, n: nat)
  {
    RunReserved(t, t', start, start + n) && a == Alloc(PageItems(level, start, n), PageSize(level))
  }

  // ---- Part of a slot ----

  /** `inner` was made inside the sub-table of slot `i`. */
  ghost predicate InsideGot(huge: nat, level: nat, t: Table, t': Table, inner: Alloc, size: nat, i: nat)
  {
    && level > 1 && i < NPAGES && SameExcept(t, t', i) && t'.subs[i].Some?
    && Valid(level - 1, t'.subs[i].value)
    && Allocated(huge, level - 1, SubOf(t, i), t'.subs[i].value, inner, size)
  }

  /** `a` is a part of slot `i`. */
  ghost predicate NestedGot(huge: nat, level: nat, t: Table, t': Table, a: Alloc, size: nat, i: nat)
  {
    && |a.items| == 1 && a.pageSize == PageSize(level)
    && a.items[0].SubTable? && a.items[0].index == i && a.items[0].offset == 0
    && InsideGot(huge, level, t, t', a.items[0].alloc, size, i)
  }

  /** What a direct request gets at slot `offset`. */
  ghost predicate CrudeGot(huge: nat, level: nat, t: Table, t': Table, a: Alloc, size: nat, offset: nat)
  {
    if PassedDown(level, size) then NestedGot(huge, level, t, t', a, size, offset)
    else PagesGot(level, t, t', a, offset, Pages(level, size))
  }

  lemma MiddlePages(level: nat, t: Table, t': Table, start: nat, end: nat, offset: nat, a: Alloc)
    requires start <= end && a.pageSize == PageSize(level) && RunReserved(t, t', start, end) && SortedByOffset(a.items)
    requires multiset(a.items)
          == multiset(Gathered(PageItems(level, start, end - start), Rems(None, end, offset, None, start, 0)))
    ensures OnlyPages(a) && PagesGot(level, t, t', a, start, end - start)
  {
    hide SortedByOffset, RunReserved, SlotAddr, Gathered;
    assert Rems(None, end, offset, None, start, 0) == [None, None];
    BuiltPages(level, start, end - start, a);
  }
}
