/** Sub-tables are only kept as long as something in them is used, so that an address range without any
    mapping is also one the allocator can see as empty. */
module Trimming {
  import opened Options
  import opened Layout
  import opened Entries
  import opened Availability
  import opened PageTables
  import opened Allocations
  import opened Slots
  import opened Staging

  ghost predicate TrimSlot(level: nat, t: Table, i: nat)
    requires WellSized(t) && i < NPAGES
    decreases level, 0
  {
    t.subs[i].Some? ==>
      && level > 1
      && NumPagesUsed(t.subs[i].value) > 0
      && Trimmed(level - 1, t.subs[i].value)
  }

  /** No sub-table at any level is empty. */
  ghost predicate Trimmed(level: nat, t: Table)
    decreases level, 1
  {
    WellSized(t) && forall i :: 0 <= i < NPAGES ==> TrimSlot(level, t, i)
  }

  ghost predicate CodeSlot(level: nat, t: Table, i: nat)
    requires WellSized(t) && i < NPAGES
    decreases level, 0
  {
    && Get(t.bitmap, i) == AvailabilityOf(t, i)
    && (t.subs[i].Some? ==> level > 1 && CodesExact(level - 1, t.subs[i].value))
  }

  /** Every code at every level is what a refresh would set it to. */
  ghost predicate CodesExact(level: nat, t: Table)
    decreases level, 1
  {
    WellSized(t) && forall i :: 0 <= i < NPAGES ==> CodeSlot(level, t, i)
  }

  ghost predicate Tidy(level: nat, t: Table)
  {
    Trimmed(level, t) && CodesExact(level, t)
  }

  /** What was tidy about `t` is tidy about `t'`. */
  ghost predicate StaysTidy(level: nat, t: Table, t': Table)
  {
    && (Trimmed(level, t) ==> Trimmed(level, t'))
    && (CodesExact(level, t) ==> CodesExact(level, t'))
  }

  lemma NewTableTidy(level: nat)
    ensures Tidy(level, NewTable())
  {
  }

  /** Changing one slot. */
  lemma TrimOne(level: nat, t: Table, t': Table, i: nat)
    requires i < NPAGES && SameExcept(t, t', i) && Trimmed(level, t)
    ensures Trimmed(level, t') <==> TrimSlot(level, t', i)
  {
    hide Get, NumPagesUsed;
    if TrimSlot(level, t', i) {
      forall j | 0 <= j < NPAGES
        ensures TrimSlot(level, t', j)
      {
        assert j == i || (SameSlot(t, t', j) && TrimSlot(level, t, j));
      }
    }
  }

  lemma CodeOne(level: nat, t: Table, t': Table, i: nat)
    requires i < NPAGES && SameExcept(t, t', i) && CodesExact(level, t)
    ensures CodesExact(level, t') <==> CodeSlot(level, t', i)
  {
    hide Get, TableCode;
    if CodeSlot(level, t', i) {
      forall j | 0 <= j < NPAGES
        ensures CodeSlot(level, t', j)
      {
        assert j == i || (SameSlot(t, t', j) && CodeSlot(level, t, j));
      }
    }
  }

  lemma TidyOne(level: nat, t: Table, t': Table, i: nat)
    requires i < NPAGES && SameExcept(t, t', i)
    requires Trimmed(level, t) ==> TrimSlot(level, t', i)
    requires CodesExact(level, t) ==> CodeSlot(level, t', i)
    ensures StaysTidy(level, t, t')
  {
    hide Trimmed, CodesExact, TrimSlot, CodeSlot, Get;
    if Trimmed(level, t) {
      TrimOne(level, t, t', i);
    }
    if CodesExact(level, t) {
      CodeOne(level, t, t', i);
    }
  }

  /** A valid slot without sub-table is as it should be. */
  lemma TidyPlain(level: nat, t: Table, t': Table, i: nat)
    requires i < NPAGES && SameExcept(t, t', i) && Valid(level, t') && t'.subs[i].None?
    ensures StaysTidy(level, t, t')
  {
    assert SlotValid(level, t', i);
    hide Get, NumPagesUsed, Valid, SlotValid, Trimmed, CodesExact;
    TidyOne(level, t, t', i);
  }

  lemma {:induction false} SubTidy(level: nat, t: Table, i: nat)
    requires i < |t.subs| && i < NPAGES && level > 1
    ensures Trimmed(level, t) ==> Trimmed(level - 1, SubOf(t, i)) && (t.subs[i].Some? ==> NumPagesUsed(SubOf(t, i)) > 0)
    ensures CodesExact(level, t) ==>
      CodesExact(level - 1, SubOf(t, i)) && (t.subs[i].Some? ==> Get(t.bitmap, i) == TableCode(SubOf(t, i)))
  {
    hide NumPagesUsed, Get, TableCode;
    NewTableTidy(level - 1);
    if Trimmed(level, t) {
      assert TrimSlot(level, t, i);
    }
    if CodesExact(level, t) {
      assert CodeSlot(level, t, i);
    }
  }

  /** A refreshed slot with a sub-table in use. */
  lemma TidySub(level: nat, t: Table, t': Table, i: nat, s: Table)
    requires level > 1 && i < NPAGES && SameExcept(t, t', i) && t'.subs[i] == Some(s)
    requires Get(t'.bitmap, i) == TableCode(s) && NumPagesUsed(s) > 0
    requires StaysTidy(level - 1, SubOf(t, i), s)
    ensures StaysTidy(level, t, t')
  {
    SubTidy(level, t, i);
    hide NumPagesUsed, Get, TableCode, Trimmed, CodesExact;
    TidyOne(level, t, t', i);
  }

  // ---- Changes that leave every slot as full as it was ----

  /** The same slots are used, and have the same codes. */
  ghost predicate SameUse(t: Table, t': Table)
  {
    && WellSized(t) && WellSized(t')
    && forall i :: 0 <= i < NPAGES ==>
         (t.entries[i].Unused? <==> t'.entries[i].Unused?) && Get(t.bitmap, i) == Get(t'.bitmap, i)
  }

  lemma {:induction false} CountSame(x: seq<Entry>, y: seq<Entry>)
    requires |x| == |y| && forall i :: 0 <= i < |x| ==> (x[i].Unused? <==> y[i].Unused?)
    ensures CountUsed(x) == CountUsed(y)
  {
    if x != [] {
      CountSame(x[1..], y[1..]);
    }
  }

  lemma SameUseCode(t: Table, t': Table)
    requires SameUse(t, t')
    ensures NumPagesUsed(t) == NumPagesUsed(t') && TableCode(t) == TableCode(t')
  {
    hide Get;
    CountSame(t.entries, t'.entries);
    IsFullMeaning(t.bitmap);
    IsFullMeaning(t'.bitmap);
  }

  /** Entries changed, sub-tables not. */
  lemma TidyEntries(level: nat, t: Table, t': Table)
    requires SameUse(t, t') && t'.subs == t.subs
    ensures StaysTidy(level, t, t')
  {
    hide NumPagesUsed, TableCode, Get;
    if Trimmed(level, t) {
      forall i | 0 <= i < NPAGES
        ensures TrimSlot(level, t', i)
      {
        assert TrimSlot(level, t, i);
      }
      assert Trimmed(level, t');
    }
    if CodesExact(level, t) {
      forall i | 0 <= i < NPAGES
        ensures CodeSlot(level, t', i)
      {
        assert CodeSlot(level, t, i);
      }
      assert CodesExact(level, t');
    }
    hide Trimmed, CodesExact;
  }

  /** One sub-table changed, and its code need not be refreshed. */
  lemma TidyInside(level: nat, t: Table, i: nat, s: Table)
    requires level > 1 && WellSized(t) && i < NPAGES && t.subs[i].Some?
    requires SameUse(t.subs[i].value, s) && StaysTidy(level - 1, t.subs[i].value, s)
    ensures StaysTidy(level, t, SetSub(t, i, Some(s))) && SameUse(t, SetSub(t, i, Some(s)))
  {
    SubTidy(level, t, i);
    SameUseCode(t.subs[i].value, s);
    hide NumPagesUsed, Get, TableCode, Trimmed, CodesExact;
    TidyOne(level, t, SetSub(t, i, Some(s)), i);
  }


  lemma TrimSub(level: nat, t: Table, i: nat)
    requires Trimmed(level, t) && i < NPAGES && t.subs[i].Some?
    ensures level > 1 && NumPagesUsed(t.subs[i].value) > 0 && Trimmed(level - 1, t.subs[i].value)
  {
    assert TrimSlot(level, t, i);
  }

  /** Something that is allocated in a table is used in it. */
  lemma BackedIsUsed(huge: nat, level: nat, a: Alloc, t: Table)
    requires Valid(level, t) && Shape(huge, level, a) && Backed(a, t)
    ensures NumPagesUsed(t) > 0
  {
    NonEmpty(huge, level, a);
    var item := a.items[0];
    assert ItemBacked(item, t) && ItemShape(huge, level, item);
    if item.SubTable? {
      assert SlotValid(level, t, item.index);
    }
    NoneUsed(t.entries);
  }

  // ---- What is free is empty ----

  /** A table with a used entry shows something somewhere. */
  lemma {:induction false} ShowsSomething(level: nat, t: Table) returns (v: nat)
    requires Valid(level, t) && Trimmed(level, t) && NumPagesUsed(t) > 0
    ensures v < Span(level) && ViewAt(level, t, v).Used?
    decreases level
  {
    NoneUsed(t.entries);
    var i :| 0 <= i < NPAGES && !t.entries[i].Unused?;
    var o := 0;
    if t.subs[i].Some? {
      TrimSub(level, t, i);
      assert SlotValid(level, t, i);
      o := ShowsSomething(level - 1, t.subs[i].value);
      SubView(level, t, i, o);
      SpanBelow(level);
    }
    hide PageSize, Valid, Trimmed;
    v := i * PageSize(level) + o;
    SlotOffset(i, o, PageSize(level));
    MulStep(i, NPAGES, PageSize(level));
  }

  /** A slot in which no address is mapped or reserved is empty for the allocator. */
  lemma FreeIsEmpty(level: nat, t: Table, i: nat)
    requires Valid(level, t) && Trimmed(level, t) && i < NPAGES
    requires forall o: nat :: o < PageSize(level) ==> SlotView(level, t, i, o) == Free
    ensures Get(t.bitmap, i) == EMPTY
  {
    assert SlotValid(level, t, i);
    if t.subs[i].Some? {
      TrimSub(level, t, i);
      var v := ShowsSomething(level - 1, t.subs[i].value);
      SpanBelow(level);
      SubView(level, t, i, v);
    } else {
      assert SlotView(level, t, i, 0) == Free;
    }
  }

  /** Some address in the window of `n` slots is mapped, reserved or shared. */
  ghost predicate WindowInUse(level: nat, t: Table, o: nat, n: nat)
  {
    exists v: nat :: SlotAddr(level, o) <= v < SlotAddr(level, o + n) && ViewAt(level, t, v) != Free
  }

  /** In a trimmed table a window is only refused because something in it is in use. */
  lemma RefusedIsInUse(level: nat, t: Table, o: nat, n: nat)
    requires Valid(level, t) && Trimmed(level, t) && o + n <= NPAGES
    ensures Clear(t, o, n) || WindowInUse(level, t, o, n)
  {
    hide Valid, Trimmed, SlotView, PageSize, Get, SlotAddr;
    if !Clear(t, o, n) {
      var i :| o <= i < o + n && Get(t.bitmap, i) != EMPTY;
      if forall x: nat :: x < PageSize(level) ==> SlotView(level, t, i, x) == Free {
        FreeIsEmpty(level, t, i);
      }
      var x: nat :| x < PageSize(level) && SlotView(level, t, i, x) != Free;
      InSlot(level, t, o, n, i, x);
    }
  }

  lemma InSlot(level: nat, t: Table, o: nat, n: nat, i: nat, x: nat)
    requires o <= i < o + n && x < PageSize(level) && SlotView(level, t, i, x) != Free
    ensures WindowInUse(level, t, o, n)
  {
    hide SlotView, PageSize;
    var v := SlotAddr(level, i) + x;
    SlotOffset(i, x, PageSize(level));
    MulMonotone(o, i, PageSize(level));
    MulStep(i, o + n, PageSize(level));
    assert ViewAt(level, t, v) != Free;
  }
}
