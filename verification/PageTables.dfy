/** The tree of allocators with their page tables, what the hardware sees through it, and the
    invariant that keeps entries, sub-allocators and availability bitmap in step. */
module PageTables {
  import opened Options
  import opened Layout
  import opened Entries
  import opened Availability

  /** One allocator: its page table, the sub-allocators it owns, and its bitmap. */
  datatype Table = Table(entries: seq<Entry>, subs: seq<Option<Table>>, bitmap: Bitmap)

  function NewTable(): Table
  {
    Table(seq(NPAGES, _ => Unused), seq(NPAGES, _ => None), Fresh())
  }

  ghost predicate WellSized(t: Table)
  {
    |t.entries| == NPAGES && |t.subs| == NPAGES
  }

  // ---- What an address means ----

  datatype Mapping =
    | NotPresent(data: nat)
    | Phys(addr: nat, flags: PageFlags)       // the translated address, with the effective flags
    | OtherType(addr: nat, flags: PageFlags)  // the same, with the memory type that bit 12 of a huge page selects
    | Malformed(addr: nat, flags: PageFlags)  // none: a huge page whose frame address has reserved bits set
    | Shared                                  // a table owned by somebody else

  /** `level` is the level of the table whose entry decides about the address. */
  datatype View = Free | Used(level: nat, mapping: Mapping)

  ghost function LeafView(level: nat, e: Entry, offset: nat): View
  {
    match e
    case Unused => Free
    case Absent(data) => Used(level, NotPresent(data))
    case Mapped(addr, bits) =>
      Used(level, if addr % PageSize(level) == 0 then Phys(addr + offset, DeserFlags(bits))
                  else MisalignedFrame(level, addr, offset, DeserFlags(bits)))
    case Link(_) => Used(level, Shared)
  }

  /** The lowest bit of a frame address is, in a huge page, no part of the address. */
  ghost function MisalignedFrame(level: nat, addr: nat, offset: nat, flags: PageFlags): Mapping
  {
    if level > 1 && addr % PageSize(level) == MIN_PAGE_SIZE then OtherType(addr - MIN_PAGE_SIZE + offset, flags)
    else Malformed(addr + offset, flags)
  }

  /** How the hardware reads a frame address, plus the offset in the page, that was written for address `v`. */
  ghost function ReadAt(level: nat, written: nat, v: nat, flags: PageFlags): Mapping
  {
    if written % PageSize(level) == v % PageSize(level) then Phys(written, flags)
    else if v % PageSize(level) <= written then
      MisalignedFrame(level, written - v % PageSize(level), v % PageSize(level), flags)
    else Malformed(written, flags)
  }

  /** An address is only accessible the way every level above allows. */
  ghost function Narrow(view: View, grant: TransitiveFlags): View
  {
    match view
    case Used(level, Phys(addr, flags)) => Used(level, Phys(addr, flags.(t := Both(flags.t, grant))))
    case Used(level, OtherType(addr, flags)) => Used(level, OtherType(addr, flags.(t := Both(flags.t, grant))))
    case Used(level, Malformed(addr, flags)) => Used(level, Malformed(addr, flags.(t := Both(flags.t, grant))))
    case _ => view
  }

  /** The view of the address at `offset` inside slot `i`. */
  ghost function SlotView(level: nat, t: Table, i: nat, offset: nat): View
    decreases level, 0
  {
    if level == 0 || i >= |t.entries| || i >= |t.subs| then Free
    else if t.entries[i].Link? && t.subs[i].Some? then
      Narrow(ViewAt(level - 1, t.subs[i].value, offset), EntryFlags(t.entries[i]))
    else LeafView(level, t.entries[i], offset)
  }

  /** The page walk: translate an address relative to the start of the table. */
  ghost function ViewAt(level: nat, t: Table, v: nat): View
    decreases level, 1
  {
    SlotView(level, t, v / PageSize(level), v % PageSize(level))
  }

  ghost predicate SameView(level: nat, t: Table, t': Table)
  {
    forall v: nat :: ViewAt(level, t, v) == ViewAt(level, t', v)
  }

  // ---- Invariant ----

  /** Slot `i` maps a page or leads to a sub-allocator of this table. */
  ghost predicate Grants(t: Table, i: nat)
  {
    && i < |t.entries| && i < |t.subs|
    && (t.entries[i].Mapped? || (t.entries[i].Link? && t.subs[i].Some?))
  }

  /** Everything that the entries of `t` grant is granted by `f` already. */
  ghost predicate Below(t: Table, f: TransitiveFlags)
  {
    forall i: nat :: Grants(t, i) ==> Within(EntryFlags(t.entries[i]), f)
  }

  /** Words that can really be in a table of this level: nonzero 63-bit data, and frames inside memory. */
  ghost predicate EntryValid(level: nat, e: Entry)
  {
    && (e.Absent? ==> 0 < e.data < WORD / 2)
    && (e.Mapped? ==> e.addr % MIN_PAGE_SIZE == 0 && e.addr + PageSize(level) <= PHYS_LIMIT)
  }

  ghost predicate SlotValid(level: nat, t: Table, i: nat)
    requires WellSized(t) && i < NPAGES
    decreases level, 0
  {
    match t.subs[i]
    case None =>
      && EntryValid(level, t.entries[i])
      && Get(t.bitmap, i) == if t.entries[i].Unused? then EMPTY else FULL
    case Some(s) =>
      && level > 1
      && t.entries[i].Link?
      && Get(t.bitmap, i) != EMPTY
      && Valid(level - 1, s)
      && Below(s, EntryFlags(t.entries[i]))
  }

  ghost predicate Valid(level: nat, t: Table)
    decreases level, 1
  {
    && level >= 1
    && WellSized(t)
    && forall i :: 0 <= i < NPAGES ==> SlotValid(level, t, i)
  }

  /** Slot `i` of the two tables is the same in all three structures. */
  ghost predicate SameSlot(t: Table, t': Table, i: nat)
    requires WellSized(t) && WellSized(t') && i < NPAGES
  {
    t.entries[i] == t'.entries[i] && t.subs[i] == t'.subs[i] && Get(t.bitmap, i) == Get(t'.bitmap, i)
  }

  ghost predicate SameExcept(t: Table, t': Table, i: nat)
  {
    && WellSized(t) && WellSized(t')
    && forall j :: 0 <= j < NPAGES && j != i ==> SameSlot(t, t', j)
  }

  /** Grants of `t` that bound it also bound `t'`. */
  ghost predicate NoNewFlags(t: Table, t': Table)
  {
    forall f :: Below(t, f) ==> Below(t', f)
  }

  lemma Sized(level: nat, t: Table)
    requires Valid(level, t)
    ensures WellSized(t)
  {
  }

  lemma NewTableValid(level: nat)
    requires level >= 1
    ensures Valid(level, NewTable())
    ensures forall v: nat :: ViewAt(level, NewTable(), v) == Free
    ensures forall f :: Below(NewTable(), f)
    ensures forall i :: 0 <= i < NPAGES ==> Get(NewTable().bitmap, i) == EMPTY
  {
  }

  /** The effective flags never exceed what a table was granted, so narrowing by the sub-table entry
      takes nothing away. */
  lemma {:induction false} ViewWithin(level: nat, t: Table, f: TransitiveFlags, v: nat)
    requires Valid(level, t) && Below(t, f)
    ensures Narrow(ViewAt(level, t, v), f) == ViewAt(level, t, v)
    decreases level
  {
  }

  /** In a valid table a slot with a sub-allocator shows exactly what the sub-allocator shows. */
  lemma SubView(level: nat, t: Table, i: nat, o: nat)
    requires Valid(level, t) && i < NPAGES && t.subs[i].Some?
    ensures level > 1 && SlotView(level, t, i, o) == ViewAt(level - 1, t.subs[i].value, o)
  {
    assert SlotValid(level, t, i);
    ViewWithin(level - 1, t.subs[i].value, EntryFlags(t.entries[i]), o);
  }

  lemma EmptySlotView(level: nat, t: Table, i: nat, o: nat)
    requires Valid(level, t) && i < NPAGES && Get(t.bitmap, i) == EMPTY
    ensures t.entries[i] == Unused && t.subs[i] == None && SlotView(level, t, i, o) == Free
  {
    assert SlotValid(level, t, i);
  }

  /** Slot-wise equal views are equal views. */
  lemma SlotsToView(level: nat, t: Table, t': Table)
    requires WellSized(t) && WellSized(t')
    requires forall i, o :: 0 <= i < NPAGES && 0 <= o < PageSize(level) ==>
      SlotView(level, t, i, o) == SlotView(level, t', i, o)
    ensures SameView(level, t, t')
  {
    hide PageSize;
    forall v: nat
      ensures ViewAt(level, t, v) == ViewAt(level, t', v)
    {
      var i, o := v / PageSize(level), v % PageSize(level);
      if i < NPAGES {
        assert SlotView(level, t, i, o) == SlotView(level, t', i, o);
      }
    }
  }
}
