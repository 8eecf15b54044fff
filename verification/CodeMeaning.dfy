/** What the availability codes of a tidy table say about the addresses behind them. */
module CodeMeaning {
  import opened Layout
  import opened Entries
  import opened Availability
  import opened PageTables
  import opened Slots
  import opened Trimming

  /** The addresses of a table that are mapped, reserved or shared. */
  ghost function UsedIn(level: nat, t: Table): iset<nat>
  {
    iset v: nat | v < Span(level) && ViewAt(level, t, v) != Free
  }

  ghost predicate AllUsed(level: nat, used: iset<nat>)
  {
    forall v: nat :: v < Span(level) ==> v in used
  }

  /** Something in slot `i` is in use. */
  ghost predicate PartUsed(level: nat, used: iset<nat>, i: nat)
  {
    exists v: nat :: v in used && SlotAddr(level, i) <= v < SlotAddr(level, i + 1)
  }

  /** How many of the first `n` slots have something in use. */
  ghost function PartsUsed(level: nat, used: iset<nat>, n: nat): nat
  {
    if n == 0 then 0 else PartsUsed(level, used, n - 1) + if PartUsed(level, used, n - 1) then 1 else 0
  }

  /** The code of a table, told by its used addresses alone. */
  ghost function CodeFor(level: nat, used: iset<nat>): bv8
  {
    if AllUsed(level, used) then FULL
    else if PartsUsed(level, used, NPAGES) > NPAGES / 2 then HALF_FULL
    else TABLE
  }

  lemma UsedAt(level: nat, t: Table, i: nat, v: nat)
    requires i < NPAGES && SlotAddr(level, i) <= v < SlotAddr(level, i + 1)
    ensures v in UsedIn(level, t) <==> SlotView(level, t, i, v - SlotAddr(level, i)) != Free
    ensures v < Span(level)
  {
    hide PageSize, SlotView;
    DivUnique(v, PageSize(level), i);
    MulMonotone(i + 1, NPAGES, PageSize(level));
  }

  /** An entry is used exactly when something in its slot is. */
  lemma EntryInUse(level: nat, t: Table, i: nat)
    requires Valid(level, t) && Trimmed(level, t) && i < NPAGES
    ensures !t.entries[i].Unused? <==> PartUsed(level, UsedIn(level, t), i)
  {
    assert SlotValid(level, t, i);
    if !t.entries[i].Unused? {
      var o := 0;
      if t.subs[i].Some? {
        TrimSub(level, t, i);
        o := ShowsSomething(level - 1, t.subs[i].value);
        SubView(level, t, i, o);
        SpanBelow(level);
      }
      SlotAddrSucc(level, i);
      UsedAt(level, t, i, SlotAddr(level, i) + o);
    } else if PartUsed(level, UsedIn(level, t), i) {
      var v: nat :| v in UsedIn(level, t) && SlotAddr(level, i) <= v < SlotAddr(level, i + 1);
      UsedAt(level, t, i, v);
    }
  }

  lemma {:induction false} CountSnoc(entries: seq<Entry>, e: Entry)
    ensures CountUsed(entries + [e]) == CountUsed(entries) + if e.Unused? then 0 else 1
  {
    if entries != [] {
      assert (entries + [e])[1..] == entries[1..] + [e];
      CountSnoc(entries[1..], e);
    } else {
      assert ([e])[1..] == [];
    }
  }

  lemma {:induction false} CountIsParts(level: nat, t: Table, n: nat)
    requires Valid(level, t) && Trimmed(level, t) && n <= NPAGES && WellSized(t)
    ensures CountUsed(t.entries[..n]) == PartsUsed(level, UsedIn(level, t), n)
  {
    hide Valid, Trimmed, UsedIn, PartUsed;
    if n > 0 {
      CountIsParts(level, t, n - 1);
      EntryInUse(level, t, n - 1);
      assert t.entries[..n] == t.entries[..n - 1] + [t.entries[n - 1]];
      CountSnoc(t.entries[..n - 1], t.entries[n - 1]);
    }
  }

  lemma {:induction false} CountAll(entries: seq<Entry>)
    ensures CountUsed(entries) <= |entries|
    ensures CountUsed(entries) == |entries| <==> forall i :: 0 <= i < |entries| ==> !entries[i].Unused?
  {
    if entries != [] {
      var rest := entries[1..];
      CountAll(rest);
      assert forall i :: 0 < i < |entries| ==> entries[i] == rest[i - 1];
      assert forall i :: 0 <= i < |rest| ==> rest[i] == entries[i + 1];
    }
  }

  lemma FullLeaf(level: nat, t: Table, i: nat)
    requires Valid(level, t) && i < NPAGES && t.subs[i].None?
    ensures Get(t.bitmap, i) == FULL <==> forall o: nat :: o < PageSize(level) ==> SlotView(level, t, i, o) != Free
  {
    hide PageSize, Get;
    assert SlotValid(level, t, i);
    assert SlotView(level, t, i, 0) == LeafView(level, t.entries[i], 0);
  }

  lemma FullSub(level: nat, t: Table, i: nat, s: Table)
    requires level > 1 && i < NPAGES && (AllUsed(level - 1, UsedIn(level - 1, s)) <==> Get(t.bitmap, i) == FULL)
    requires forall o: nat :: o < PageSize(level) ==> SlotView(level, t, i, o) == ViewAt(level - 1, s, o)
    ensures Get(t.bitmap, i) == FULL <==> forall o: nat :: o < PageSize(level) ==> SlotView(level, t, i, o) != Free
  {
    hide SlotView, ViewAt, PageSize, Get;
    SpanBelow(level);
    var below := level - 1;
    if Get(t.bitmap, i) == FULL {
      forall o: nat | o < PageSize(level)
        ensures SlotView(level, t, i, o) != Free
      {
        assert o in UsedIn(below, s);
      }
    } else {
      var v: nat :| v < Span(below) && v !in UsedIn(below, s);
      assert v < PageSize(level) && SlotView(level, t, i, v) == ViewAt(below, s, v) == Free;
      assert exists o: nat :: o < PageSize(level) && SlotView(level, t, i, o) == Free;
    }
  }

  /** Slot `i` is completely in use exactly when its code says so. */
  lemma {:induction false} FullSlot(level: nat, t: Table, i: nat)
    requires Valid(level, t) && CodesExact(level, t) && i < NPAGES
    ensures Get(t.bitmap, i) == FULL <==> forall o: nat :: o < PageSize(level) ==> SlotView(level, t, i, o) != Free
    decreases level, 0
  {
    assert SlotValid(level, t, i);
    match t.subs[i]
    case None => FullLeaf(level, t, i);
    case Some(s) =>
      SubTidy(level, t, i);
      hide Valid, CodesExact, SlotView, ViewAt, PageSize, TableCode, Get, SlotValid;
      FullTable(level - 1, s);
      var below := level - 1;
      forall o: nat | o < PageSize(level)
        ensures SlotView(level, t, i, o) == ViewAt(below, s, o)
      {
        SubView(level, t, i, o);
      }
      FullSub(level, t, i, s);
  }

  /** A table counts as full exactly when every address of it is in use. */
  lemma {:induction false} FullTable(level: nat, t: Table)
    requires Valid(level, t) && CodesExact(level, t)
    ensures TableCode(t) == FULL <==> AllUsed(level, UsedIn(level, t))
    decreases level, 1
  {
    hide Valid, CodesExact, SlotView, PageSize, Get, SlotAddr;
    Sized(level, t);
    IsFullMeaning(t.bitmap);
    CountAll(t.entries);
    forall i | 0 <= i < NPAGES
      ensures Get(t.bitmap, i) == FULL <==> forall o: nat :: o < PageSize(level) ==> SlotView(level, t, i, o) != Free
      ensures Get(t.bitmap, i) == FULL ==> !t.entries[i].Unused?
    {
      FullSlot(level, t, i);
      FullIsUsed(level, t, i);
    }
    if forall i :: 0 <= i < NPAGES ==> Get(t.bitmap, i) == FULL {
      forall v: nat | v < Span(level)
        ensures v in UsedIn(level, t)
      {
        SlotInTable(v, PageSize(level), NPAGES);
        DivBounds(v, PageSize(level));
        var i, o := v / PageSize(level), v % PageSize(level);
        assert Get(t.bitmap, i) == FULL && SlotView(level, t, i, o) != Free;
      }
    }
    if AllUsed(level, UsedIn(level, t)) {
      forall i, o: nat | 0 <= i < NPAGES && o < PageSize(level)
        ensures SlotView(level, t, i, o) != Free
      {
        SlotAddrSucc(level, i);
        UsedAt(level, t, i, SlotAddr(level, i) + o);
      }
      forall i | 0 <= i < NPAGES
        ensures Get(t.bitmap, i) == FULL
      {
      }
    }
  }

  lemma NotFull(level: nat, t: Table, i: nat, o: nat)
    requires Valid(level, t) && CodesExact(level, t) && i < NPAGES && o < PageSize(level)
    requires SlotView(level, t, i, o) == Free
    ensures Get(t.bitmap, i) < FULL
  {
    hide Valid, CodesExact, SlotView, PageSize, Get;
    FullSlot(level, t, i);
  }

  lemma FullIsUsed(level: nat, t: Table, i: nat)
    requires Valid(level, t) && i < NPAGES
    ensures Get(t.bitmap, i) == FULL ==> !t.entries[i].Unused?
  {
    assert SlotValid(level, t, i);
  }

  /** The code of a tidy table depends on nothing but which of its addresses are in use. */
  lemma CodeIsUse(level: nat, t: Table)
    requires Valid(level, t) && Tidy(level, t)
    ensures TableCode(t) == CodeFor(level, UsedIn(level, t))
  {
    hide Valid, Trimmed, CodesExact, UsedIn, AllUsed, IsFull;
    Sized(level, t);
    FullTable(level, t);
    CountIsParts(level, t, NPAGES);
    assert t.entries[..NPAGES] == t.entries;
  }

  /** The addresses of one slot that are in use, counted from where the slot begins. */
  ghost function UsedInSlot(level: nat, t: Table, i: nat): iset<nat>
  {
    iset o: nat | o < PageSize(level) && SlotView(level, t, i, o) != Free
  }

  /** What each of the four codes of a tidy table says: nothing in the slot is in use, everything is, or
      something is, in more than half of its parts or in at most half of them. */
  lemma CodeSays(level: nat, t: Table, i: nat)
    requires Valid(level, t) && Tidy(level, t) && i < NPAGES
    ensures Get(t.bitmap, i) == EMPTY <==> UsedInSlot(level, t, i) == iset{}
    ensures Get(t.bitmap, i) == FULL <==> forall o: nat :: o < PageSize(level) ==> o in UsedInSlot(level, t, i)
    ensures EMPTY < Get(t.bitmap, i) < FULL ==>
      && level > 1
      && (Get(t.bitmap, i) == HALF_FULL <==> PartsUsed(level - 1, UsedInSlot(level, t, i), NPAGES) > NPAGES / 2)
  {
    hide Valid, Trimmed, CodesExact, SlotView, ViewAt, PageSize, Get, UsedInSlot;
    Sized(level, t);
    FullMeans(level, t, i);
    EmptyMeans(level, t, i);
    if EMPTY < Get(t.bitmap, i) < FULL {
      SomeMeans(level, t, i);
    }
  }

  lemma FullMeans(level: nat, t: Table, i: nat)
    requires Valid(level, t) && CodesExact(level, t) && i < NPAGES
    ensures Get(t.bitmap, i) == FULL <==> forall o: nat :: o < PageSize(level) ==> o in UsedInSlot(level, t, i)
  {
    hide Valid, CodesExact, SlotView, PageSize, Get;
    FullSlot(level, t, i);
    if Get(t.bitmap, i) != FULL {
      var o: nat :| o < PageSize(level) && SlotView(level, t, i, o) == Free;
      assert o !in UsedInSlot(level, t, i);
    } else {
      forall o: nat | o < PageSize(level)
        ensures o in UsedInSlot(level, t, i)
      {
        assert SlotView(level, t, i, o) != Free;
      }
    }
  }

  lemma EmptyMeans(level: nat, t: Table, i: nat)
    requires Valid(level, t) && Trimmed(level, t) && i < NPAGES
    ensures Get(t.bitmap, i) == EMPTY <==> UsedInSlot(level, t, i) == iset{}
  {
    hide Valid, Trimmed, SlotView, PageSize, Get;
    if Get(t.bitmap, i) == EMPTY {
      forall o: nat
        ensures SlotView(level, t, i, o) == Free
      {
        EmptySlotView(level, t, i, o);
      }
    } else if UsedInSlot(level, t, i) == iset{} {
      forall o: nat | o < PageSize(level)
        ensures SlotView(level, t, i, o) == Free
      {
        assert o !in UsedInSlot(level, t, i);
      }
      FreeIsEmpty(level, t, i);
    }
  }

  lemma SomeMeans(level: nat, t: Table, i: nat)
    requires Valid(level, t) && Tidy(level, t) && i < NPAGES && EMPTY < Get(t.bitmap, i) < FULL
    ensures level > 1
    ensures Get(t.bitmap, i) == HALF_FULL <==> PartsUsed(level - 1, UsedInSlot(level, t, i), NPAGES) > NPAGES / 2
  {
    assert SlotValid(level, t, i);
    hide Valid, Trimmed, CodesExact, SlotView, ViewAt, PageSize, Get, SlotValid, TableCode, AllUsed;
    var s, below := t.subs[i].value, level - 1;
    SubTidy(level, t, i);
    CodeIsUse(below, s);
    SpanBelow(level);
    forall o: nat
      ensures o in UsedIn(below, s) <==> o in UsedInSlot(level, t, i)
    {
      SubView(level, t, i, o);
    }
    assert UsedIn(below, s) == UsedInSlot(level, t, i);
  }

  lemma {:induction false} PartsGrow(level: nat, used: iset<nat>, m: nat, n: nat)
    requires m <= n
    ensures PartsUsed(level, used, m) <= PartsUsed(level, used, n)
    ensures (forall i: nat :: m <= i < n ==> PartUsed(level, used, i)) ==>
              PartsUsed(level, used, n) == PartsUsed(level, used, m) + n - m
  {
    hide PartUsed;
    if m < n {
      PartsGrow(level, used, m, n - 1);
    }
  }

  lemma PartsFrom(level: nat, used: iset<nat>, m: nat, n: nat)
    requires 1 <= m <= n && PartUsed(level, used, 0) && forall i: nat :: m <= i < n ==> PartUsed(level, used, i)
    ensures PartsUsed(level, used, n) >= 1 + n - m
  {
    hide PartUsed;
    PartsGrow(level, used, 1, m);
    PartsGrow(level, used, m, n);
  }
}
