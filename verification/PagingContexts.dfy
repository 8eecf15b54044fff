/** A page allocator with the allocations handed out from it: who owns which address, and what every
    address translates to, over any sequence of operations. */
module PagingContexts {
  import opened Options
  import opened Layout
  import opened Entries
  import opened Availability
  import opened PageTables
  import opened Allocations
  import opened Slots
  import opened Strategies
  import opened AddressParts
  import opened Staging
  import opened Trimming
  import opened Granting
  import opened Leftovers
  import opened OnePage
  import opened Finding
  import opened Limits
  import opened FirstFit
  import opened PageMapping
  import opened Splitting
  import opened Translation

  /** What the owner of an allocation made of it last. */
  datatype Content = AbsentData(data: nat) | MappedTo(base: nat, flags: PageFlags) | Misaligned

  ghost predicate Shows(level: nat, t: Table, a: Alloc, c: Content)
  {
    match c
    case AbsentData(data) =>
      forall v: nat :: Covers(a, v) ==> ViewAt(level, t, v).Used? && ViewAt(level, t, v).mapping == NotPresent(data)
    case MappedTo(base, flags) => ShowsRange(level, t, a, base, flags)
    case Misaligned => true
  }

  ghost predicate Apart(a: Alloc, b: Alloc)
  {
    EndAddr(a) <= StartAddr(b) || EndAddr(b) <= StartAddr(a)
  }

  /** The allocation owns its leaf pages, and they show what the owner wrote. */
  ghost predicate LiveIn(huge: nat, level: nat, t: Table, a: Alloc, c: Content)
  {
    Shape(huge, level, a) && Backed(a, t) && Shows(level, t, a, c)
  }

  ghost predicate Occupied(view: View)
  {
    view.Used? && view.mapping != Shared
  }

  ghost predicate Owned(contents: map<Alloc, Content>, v: nat)
  {
    exists a :: a in contents && Covers(a, v)
  }

  /** Live allocations are intact and pairwise apart, and own everything that is occupied. */
  ghost predicate Consistent(huge: nat, level: nat, t: Table, contents: map<Alloc, Content>)
  {
    && (forall a :: a in contents ==> LiveIn(huge, level, t, a, contents[a]))
    && (forall a, b :: a in contents && b in contents && a != b ==> Apart(a, b))
    && (forall v: nat :: Occupied(ViewAt(level, t, v)) ==> Owned(contents, v))
  }

  /** An address is occupied exactly when one live allocation owns it, and never by two. */
  lemma OwnedOnce(huge: nat, level: nat, t: Table, contents: map<Alloc, Content>, v: nat)
    requires Valid(level, t) && Consistent(huge, level, t, contents)
    ensures Occupied(ViewAt(level, t, v)) <==> Owned(contents, v)
    ensures forall a, b :: a in contents && b in contents && Covers(a, v) && Covers(b, v) ==> a == b
  {
    hide Shape, Backed, Valid, StartAddr, EndAddr, ViewAt, Shows;
    if Owned(contents, v) {
      var a :| a in contents && Covers(a, v);
      assert LiveIn(huge, level, t, a, contents[a]);
      BackedUsed(huge, level, a, t, v);
    }
  }

  lemma LiveRange(huge: nat, level: nat, t: Table, contents: map<Alloc, Content>, a: Alloc)
    requires Consistent(huge, level, t, contents) && a in contents
    ensures Shape(huge, level, a) && Backed(a, t) && StartAddr(a) < EndAddr(a)
  {
    hide Shape, Backed, Shows, ViewAt;
    assert LiveIn(huge, level, t, a, contents[a]);
    ShapeBounds(huge, level, a);
  }

  // ---- What each operation keeps ----

  /** An allocation is not affected by changes elsewhere. */
  lemma LiveElsewhere(huge: nat, level: nat, t: Table, t': Table, a: Alloc, c: Content)
    requires Valid(level, t) && Valid(level, t') && LiveIn(huge, level, t, a, c)
    requires forall v: nat :: Covers(a, v) ==> ViewAt(level, t', v) == ViewAt(level, t, v)
    ensures LiveIn(huge, level, t', a, c)
  {
    hide Shape, Backed, Valid, StartAddr, EndAddr, ViewAt;
    BackedByView(huge, level, a, t, t');
  }

  lemma OthersLive(huge: nat, level: nat, t: Table, t': Table, contents: map<Alloc, Content>, a: Alloc)
    requires Valid(level, t) && Valid(level, t') && Consistent(huge, level, t, contents)
    requires forall b :: b in contents && b != a ==> Apart(b, a)
    requires forall v: nat :: !Covers(a, v) ==> ViewAt(level, t', v) == ViewAt(level, t, v)
    ensures forall b :: b in contents && b != a ==> LiveIn(huge, level, t', b, contents[b])
  {
    hide Valid, StartAddr, EndAddr, ViewAt, LiveIn;
    forall b | b in contents && b != a
      ensures LiveIn(huge, level, t', b, contents[b])
    {
      assert LiveIn(huge, level, t, b, contents[b]) && Apart(b, a);
      LiveElsewhere(huge, level, t, t', b, contents[b]);
    }
  }

  lemma TakenIsApart(huge: nat, level: nat, t: Table, t': Table, a: Alloc, b: Alloc, c: Content)
    requires Valid(level, t) && Shape(huge, level, a) && Taken(level, t, t', a) && LiveIn(huge, level, t, b, c)
    ensures Apart(a, b) && Apart(b, a) && a != b
  {
    hide Backed, Valid, ViewAt, Shows, PageSize;
    ShapeBounds(huge, level, a);
    ShapeBounds(huge, level, b);
    hide Shape, StartAddr, EndAddr;
    if !Apart(a, b) {
      var v := if StartAddr(a) < StartAddr(b) then StartAddr(b) else StartAddr(a);
      assert Covers(a, v) && Covers(b, v);
      BackedUsed(huge, level, b, t, v);
    }
  }

  lemma AfterTaken(huge: nat, level: nat, t: Table, t': Table, contents: map<Alloc, Content>, a: Alloc)
    requires Valid(level, t) && Valid(level, t') && Consistent(huge, level, t, contents)
    requires Shape(huge, level, a) && Backed(a, t') && Taken(level, t, t', a)
    ensures a !in contents && Consistent(huge, level, t', contents[a := AbsentData(RESERVED)])
  {
    hide Valid, Shape, Backed, StartAddr, EndAddr, ViewAt;
    forall b | b in contents
      ensures Apart(a, b) && Apart(b, a) && a != b
    {
      assert LiveIn(huge, level, t, b, contents[b]);
      TakenIsApart(huge, level, t, t', a, b, contents[b]);
    }
    OthersLive(huge, level, t, t', contents, a);
    assert LiveIn(huge, level, t', a, AbsentData(RESERVED));
    hide LiveIn, Apart;
    OwnedAfter(level, t, t', contents, contents[a := AbsentData(RESERVED)], a);
  }

  /** Nothing new is occupied outside a range that is owned now. */
  lemma OwnedAfter(level: nat, t: Table, t': Table, contents: map<Alloc, Content>, contents': map<Alloc, Content>,
                   a: Alloc)
    requires forall v: nat :: Occupied(ViewAt(level, t, v)) ==> Owned(contents, v)
    requires forall v: nat :: !Covers(a, v) ==> ViewAt(level, t', v) == ViewAt(level, t, v)
    requires forall v: nat :: Covers(a, v) && Occupied(ViewAt(level, t', v)) ==> Owned(contents', v)
    requires forall b :: b in contents && b != a ==> b in contents'
    ensures forall v: nat :: Occupied(ViewAt(level, t', v)) ==> Owned(contents', v)
  {
  }

  lemma AfterReleased(huge: nat, level: nat, t: Table, t': Table, contents: map<Alloc, Content>, a: Alloc)
    requires Valid(level, t) && Valid(level, t') && Consistent(huge, level, t, contents) && a in contents
    requires Released(level, t, t', a)
    ensures Consistent(huge, level, t', contents - {a})
  {
    hide Valid, LiveIn, Apart, ViewAt, StartAddr, EndAddr;
    OthersLive(huge, level, t, t', contents, a);
    OwnedAfter(level, t, t', contents, contents - {a}, a);
  }

  lemma AfterChange(huge: nat, level: nat, t: Table, t': Table, contents: map<Alloc, Content>, a: Alloc, c: Content)
    requires Valid(level, t) && Valid(level, t') && Consistent(huge, level, t, contents) && a in contents
    requires forall v: nat :: !Covers(a, v) ==> ViewAt(level, t', v) == ViewAt(level, t, v)
    requires LiveIn(huge, level, t', a, c)
    ensures Consistent(huge, level, t', contents[a := c])
  {
    hide Valid, LiveIn, Apart, ViewAt, StartAddr, EndAddr;
    OthersLive(huge, level, t, t', contents, a);
    OwnedAfter(level, t, t', contents, contents[a := c], a);
  }

  lemma AfterSameView(huge: nat, level: nat, t: Table, t': Table, contents: map<Alloc, Content>)
    requires Valid(level, t) && Valid(level, t') && Consistent(huge, level, t, contents) && SameView(level, t, t')
    ensures Consistent(huge, level, t', contents)
  {
    hide Valid, LiveIn, Apart, ViewAt, StartAddr, EndAddr;
    forall a | a in contents
      ensures LiveIn(huge, level, t', a, contents[a])
    {
      LiveElsewhere(huge, level, t, t', a, contents[a]);
    }
  }

  // ---- Mapping ----

  /** What writing to an allocation leaves there. */
  ghost function ContentOf(level: nat, a: Alloc, action: Action): Content
  {
    match action
    case MarkAbsent(data) => AbsentData(data % (WORD / 2))
    case MapTo(base, flags) => if AlignedLike(level, a, base) then MappedTo(base, flags) else Misaligned
  }

  lemma ActedLive(huge: nat, level: nat, t: Table, t': Table, a: Alloc, action: Action)
    requires Valid(level, t) && Valid(level, t') && Shape(huge, level, a) && Backed(a, t) && StartAddr(a) < EndAddr(a)
    requires Writable(action, 0, EndAddr(a) - StartAddr(a)) && Acted(level, t, t', a, 0, action)
    ensures LiveIn(huge, level, t', a, ContentOf(level, a, action))
  {
    hide Valid, Shape, Backed, StartAddr, EndAddr, ViewAt, AlignedLike, ShowsRange;
    ActedBacked(huge, level, t, t', a, 0, action);
    match action
    case MarkAbsent(data) =>
      hide AbsentEntry;
      AbsentData63(data);
    case MapTo(base, flags) =>
      hide Acted;
      MapsExactly(huge, level, t, t', a, base, flags);
  }

  // ---- Splitting ----

  /** The content of the part that starts `mid` bytes in. */
  ghost function PartFrom(c: Content, mid: nat): Content
  {
    if c.MappedTo? then c.(base := c.base + mid) else c
  }

  lemma PartLive(huge: nat, level: nat, t: Table, t': Table, a: Alloc, c: Content, part: Alloc)
    requires Shows(level, t, a, c) && MeaningKept(level, t, t', a)
    requires Shape(huge, level, part) && Backed(part, t')
    requires StartAddr(a) <= StartAddr(part) && EndAddr(part) <= EndAddr(a)
    ensures LiveIn(huge, level, t', part, PartFrom(c, StartAddr(part) - StartAddr(a)))
  {
    hide Shape, Backed, ViewAt, StartAddr, EndAddr;
    forall v: nat | Covers(part, v)
      ensures SameMeaning(ViewAt(level, t, v), ViewAt(level, t', v)) && Covers(a, v)
    {
      assert Covers(a, v);
    }
  }

  ghost function SplitContents(contents: map<Alloc, Content>, a: Alloc, mid: nat, left: Alloc,
                               right: Alloc): map<Alloc, Content>
    requires a in contents
  {
    (contents - {a})[left := contents[a]][right := PartFrom(contents[a], mid)]
  }

  lemma AfterSplit(huge: nat, level: nat, t: Table, t': Table, contents: map<Alloc, Content>, a: Alloc, mid: nat,
                   left: Alloc, right: Alloc)
    requires Valid(level, t) && Valid(level, t') && Consistent(huge, level, t, contents) && a in contents
    requires 0 < mid && StartAddr(a) + mid < EndAddr(a)
    requires Halves(huge, level, t', a, mid, left, right) && MeaningKept(level, t, t', a)
    ensures Consistent(huge, level, t', SplitContents(contents, a, mid, left, right))
  {
    hide Valid, Shape, Backed, ViewAt, StartAddr, EndAddr;
    assert LiveIn(huge, level, t, a, contents[a]);
    PartLive(huge, level, t, t', a, contents[a], left);
    PartLive(huge, level, t, t', a, contents[a], right);
    hide Shows;
    OthersLive(huge, level, t, t', contents, a);
    var contents' := SplitContents(contents, a, mid, left, right);
    assert left in contents' && right in contents';
    hide LiveIn;
    OwnedAfter(level, t, t', contents, contents', a);
  }

  // ---- The allocator ----

  /** 48 address bits, sign-extended to 64. */
  function Canonical(addr: nat): nat
  {
    var low := addr % VMEM_SIZE;
    if low < VMEM_SIZE / 2 then low else low + (WORD - VMEM_SIZE)
  }

  /** Bits 47 to 63 are all equal. */
  ghost predicate IsCanonical(addr: nat)
  {
    addr < VMEM_SIZE / 2 || WORD - VMEM_SIZE / 2 <= addr < WORD
  }

  /** The canonical form is canonical, keeps the low 48 bits, and is the only address that does. */
  lemma CanonicalIs(addr: nat, other: nat)
    ensures IsCanonical(Canonical(addr)) && Canonical(addr) % VMEM_SIZE == addr % VMEM_SIZE
    ensures IsCanonical(other) && other % VMEM_SIZE == addr % VMEM_SIZE ==> other == Canonical(addr)
  {
  }

  /** Going from an address to table-relative form and back gives the address, if it was canonical. */
  lemma StartsAt(addr: nat, offset: nat)
    requires offset <= addr
    ensures Canonical(CropAddr(addr - offset) + offset) == Canonical(addr)
    ensures IsCanonical(addr) ==> Canonical(CropAddr(addr - offset) + offset) == addr
  {
  }

  /** A table of entries handed out as allocations. `offset` is where the table starts in virtual memory. */
  class PageAllocator {
    const huge: nat
    const level: nat
    const offset: nat
    const isGlobal: bool
    var table: Table
    ghost var contents: map<Alloc, Content>

    ghost predicate Valid()
      reads this
    {
      && 1 <= huge && 1 <= level <= 4
      && PageTables.Valid(level, table)
      && Consistent(huge, level, table, contents)
    }

    constructor (huge: nat, level: nat, offset: nat, isGlobal: bool)
      requires 1 <= huge && 1 <= level <= 4
      ensures Valid() && contents == map[]
      ensures this.huge == huge && this.level == level && this.offset == offset && this.isGlobal == isGlobal
      ensures table == NewTable() && Tidy(level, table) && forall v: nat :: ViewAt(level, table, v) == Free
    {
      this.huge, this.level, this.offset, this.isGlobal := huge, level, offset, isGlobal;
      table := NewTable();
      contents := map[];
      NewTableValid(level);
      NewTableTidy(level);
    }

    /** Enter a table that belongs to another allocator; only into a slot that was never used. */
    method PutGlobalTable(index: nat, flags: PageFlags)
      requires Valid() && level > 1 && index < NPAGES && Get(table.bitmap, index) == EMPTY
      modifies this
      ensures Valid() && contents == old(contents)
      ensures SharedAt(level, old(table), table, index)
      ensures StaysTidy(level, old(table), table)
      ensures forall i :: 0 <= i < NPAGES && i != index ==> Get(table.bitmap, i) == old(Get(table.bitmap, i))
      ensures Get(table.bitmap, index) == FULL && SharedWith(table, index, flags)
      ensures SameExcept(old(table), table, index)
    {
      hide PageTables.Valid, Consistent, SharedAt, Get, Set, Trimmed, CodesExact;
      Sized(level, table);
      var t' := SharedTable(table, index, flags);
      SharedTablePut(level, table, index, flags);
      TidyPlain(level, table, t', index);
      AfterShared(huge, level, table, t', contents, index);
      table := t';
    }

    /** A refused request may leave tables behind that break the invariant; `Litters` says exactly when. */
    method Allocate(size: nat, strategies: seq<Strategy>) returns (r: Option<Alloc>)
      requires Valid() && size > 0 && size % MIN_PAGE_SIZE == 0 && Windows(level, size, strategies)
      modifies this
      ensures Valid() <==> !Litters(level, old(table), size, strategies)
      ensures r.Some? <==> AllocGranted(level, old(table), size, strategies)
      ensures r.Some? <==> exists addr: nat :: Fits(level, old(table), size, strategies, addr)
      ensures r.Some? ==> PlacedAt(level, old(table), size, strategies, StartAddr(r.value))
      ensures r.Some? ==> IsFirst(level, old(table), size, strategies, StartAddr(r.value))
      ensures Valid() ==> StaysTidy(level, old(table), table)
      ensures r.None? ==> contents == old(contents) && SameView(level, old(table), table)
      ensures r.None? && Valid() ==> table == old(table) && NoneClear(level, table, size, strategies[0])
      ensures r.None? && Valid() && Trimmed(level, table) ==> AllInUse(level, table, size, strategies[0])
      ensures Plain(level, old(table), size, strategies) ==> (r.None? <==> Exhausted(level, old(table), strategies))
      ensures r.Some? ==>
        && r.value !in old(contents) && contents == old(contents)[r.value := AbsentData(RESERVED)]
        && EndAddr(r.value) == StartAddr(r.value) + size
        && Taken(level, old(table), table, r.value)
        && exists offset :: FoundAt(level, old(table), r.value, size, strategies[0], offset)
    {
      hide PageTables.Valid, Consistent, Shape, Backed, Taken, ViewAt, PageSize, StartAddr, EndAddr;
      hide StaysTidy, NoneClear;
      hide Canonical, Clear, FoundAt, Trimmed, AllInUse, SearchPages, Litters, Loose, Plain, Exhausted, SameView;
      hide AllocGranted, PlacedAt, Fits, IsFirst;
      var t';
      GrantedIfFits(level, table, size, strategies);
      t', r := FirstFit.Allocate(huge, level, table, size, strategies);
      if r.Some? {
        PlacedIsFirst(level, table, size, strategies, StartAddr(r.value));
      }
      Handed(t', r);
      if r.None? && PageTables.Valid(level, table) && Trimmed(level, table) {
        NoneClearInUse(level, table, size, strategies[0]);
      }
    }

    /** A refusal changes no view; `UndoSite` says exactly when it leaves the table less tidy. */
    method AllocateAt(addr: nat, size: nat) returns (r: Option<Alloc>)
      requires Valid() && size > 0 && size % MIN_PAGE_SIZE == 0
      requires offset <= addr && (addr - offset) % MIN_PAGE_SIZE == 0
      requires ScanStops(table, StartIdx(level, CropAddr(addr - offset)), EndIdx(level, CropAddr(addr - offset), size))
      modifies this
      ensures Valid()
      ensures r.Some? <==> Granted(level, old(table), CropAddr(addr - offset), size)
      ensures r.None? ==> contents == old(contents) && SameView(level, old(table), table)
      ensures r.None? && UndoSite(level, old(table), CropAddr(addr - offset), size).None? ==> table == old(table)
      ensures r.None? ==>
        RefusedTidy(level, old(table), table, UndoSite(level, old(table), CropAddr(addr - offset), size))
      ensures r.Some? ==>
        && r.value !in old(contents) && contents == old(contents)[r.value := AbsentData(RESERVED)]
        && StartAddr(r.value) == CropAddr(addr - offset) && EndAddr(r.value) == StartAddr(r.value) + size
        && Canonical(StartAddr(r.value) + offset) == Canonical(addr)
        && (IsCanonical(addr) ==> Canonical(StartAddr(r.value) + offset) == addr)
        && Taken(level, old(table), table, r.value) && StaysTidy(level, old(table), table)
      ensures var at := CropAddr(addr - offset);
              at + size <= Span(level) && ClearRange(level, old(table), at, size) ==> r.Some?
    {
      hide PageTables.Valid, Consistent, Shape, Backed, Taken, SameView, PageSize, StartAddr, EndAddr;
      hide StaysTidy, ScanStops;
      hide Canonical, Clear, ClearRange, Granted, UndoSite, RefusedTidy, StartIdx, EndIdx;
      var t';
      t', r := FirstFit.AllocateAt(huge, level, table, addr - offset, size);
      StartsAt(addr, offset);
      Handed(t', r);
    }

    /** Install the outcome of a search. */
    method Handed(t': Table, r: Option<Alloc>)
      requires Valid() && (r.Some? ==> PageTables.Valid(level, t'))
      requires r.None? ==> SameView(level, table, t')
      requires r.Some? ==> Shape(huge, level, r.value) && Backed(r.value, t') && Taken(level, table, t', r.value)
      modifies this
      ensures (Valid() <==> PageTables.Valid(level, t')) && table == t'
      ensures contents == if r.Some? then old(contents)[r.value := AbsentData(RESERVED)] else old(contents)
      ensures r.Some? ==> r.value !in old(contents)
    {
      hide PageTables.Valid, Consistent, Shape, Backed, Taken, SameView;
      if r.Some? {
        AfterTaken(huge, level, table, t', contents, r.value);
        contents := contents[r.value := AbsentData(RESERVED)];
      } else if PageTables.Valid(level, t') {
        AfterSameView(huge, level, table, t', contents);
      }
      table := t';
    }

    /** Dropping an allocation frees exactly its addresses. */
    method Deallocate(a: Alloc)
      requires Valid() && a in contents
      modifies this
      ensures Valid() && contents == old(contents) - {a}
      ensures Released(level, old(table), table, a)
      ensures StaysTidy(level, old(table), table)
    {
      hide PageTables.Valid, Consistent, Shape, Backed, Trimmed, CodesExact;
      LiveRange(huge, level, table, contents, a);
      var t' := FirstFit.Deallocate(huge, level, table, a);
      AfterReleased(huge, level, table, t', contents, a);
      table, contents := t', contents - {a};
    }

    method SetBaseAddr(a: Alloc, base: nat, flags: PageFlags)
      requires Valid() && a in contents && base % MIN_PAGE_SIZE == 0
      requires base + EndAddr(a) - StartAddr(a) <= PHYS_LIMIT
      modifies this
      ensures Valid()
      ensures contents == old(contents)[a := ContentOf(level, a, MapTo(base, WithGlobal(isGlobal, flags)))]
      ensures ShowsRange(level, table, a, base, WithGlobal(isGlobal, flags)) <==> AlignedLike(level, a, base)
      ensures AlignedLike(level, a, base) ==> forall v: nat :: Covers(a, v) ==>
        Translates(ViewAt(level, table, v), base + (v - StartAddr(a)), flags, flags.m.global || isGlobal)
      ensures forall v: nat :: !Covers(a, v) ==> ViewAt(level, table, v) == old(ViewAt(level, table, v))
      ensures StaysTidy(level, old(table), table)
    {
      hide PageTables.Valid, Consistent, Shape, Backed, Trimmed, CodesExact;
      LiveRange(huge, level, table, contents, a);
      var action := MapTo(base, WithGlobal(isGlobal, flags));
      var t' := ForEach(huge, level, table, a, 0, action);
      ActedLive(huge, level, table, t', a, action);
      MapsExactly(huge, level, table, t', a, base, WithGlobal(isGlobal, flags));
      AfterChange(huge, level, table, t', contents, a, ContentOf(level, a, action));
      RangeTranslates(level, t', a, base, flags, isGlobal);
      table, contents := t', contents[a := ContentOf(level, a, action)];
    }

    /** Data that is zero in its 63 bits makes the allocation look free, while its slots go on counting as
        used; the invariant holds exactly for other data. */
    method SetAbsent(a: Alloc, data: nat)
      requires Valid() && a in contents
      modifies this
      ensures Valid() <==> data % (WORD / 2) != 0
      ensures Valid() ==>
        contents == old(contents)[a := AbsentData(data % (WORD / 2))] && StaysTidy(level, old(table), table)
      ensures !Valid() ==> contents == old(contents) && Released(level, old(table), table, a)
      ensures forall v: nat :: !Covers(a, v) ==> ViewAt(level, table, v) == old(ViewAt(level, table, v))
    {
      hide PageTables.Valid, Consistent, Shape, Backed, Trimmed, CodesExact;
      LiveRange(huge, level, table, contents, a);
      var t' := ForEach(huge, level, table, a, 0, MarkAbsent(data));
      if data % (WORD / 2) != 0 {
        ActedLive(huge, level, table, t', a, MarkAbsent(data));
        AfterChange(huge, level, table, t', contents, a, ContentOf(level, a, MarkAbsent(data)));
        contents := contents[a := ContentOf(level, a, MarkAbsent(data))];
      }
      table := t';
    }

    /** Cut an allocation in two; no address changes its meaning. */
    method Split(a: Alloc, mid: nat) returns (left: Alloc, right: Alloc)
      requires Valid() && a in contents
      requires 0 < mid && mid % MIN_PAGE_SIZE == 0 && StartAddr(a) + mid < EndAddr(a)
      modifies this
      ensures Valid() && contents == SplitContents(old(contents), a, mid, left, right)
      ensures StartAddr(left) == StartAddr(a) && EndAddr(left) == StartAddr(a) + mid
      ensures StartAddr(right) == StartAddr(a) + mid && EndAddr(right) == EndAddr(a)
      ensures MeaningKept(level, old(table), table, a)
      ensures StaysTidy(level, old(table), table)
    {
      hide PageTables.Valid, Consistent, Shape, Backed, Trimmed, CodesExact;
      LiveRange(huge, level, table, contents, a);
      var t';
      t', left, right := SplitAlloc(huge, level, table, a, mid);
      AfterSplit(huge, level, table, t', contents, a, mid, left, right);
      table, contents := t', SplitContents(contents, a, mid, left, right);
    }
  }

  /** Something is in use in every window the strategy admits. */
  ghost predicate AllInUse(level: nat, t: Table, size: nat, s: Strategy)
    requires WindowDefined(level, size, s)
  {
    forall o: nat :: MinPage(s) <= o < MaxPage(level, size, s) ==> WindowInUse(level, t, o, SearchPages(level, size))
  }

  lemma NoneClearInUse(level: nat, t: Table, size: nat, s: Strategy)
    requires PageTables.Valid(level, t) && Trimmed(level, t) && size > 0 && WindowDefined(level, size, s)
    requires NoneClear(level, t, size, s)
    ensures AllInUse(level, t, size, s)
  {
    hide PageTables.Valid, Trimmed, Clear, WindowInUse, SearchPages, MaxPage;
    InWindow(level, size, s);
    forall o: nat | MinPage(s) <= o < MaxPage(level, size, s)
      ensures WindowInUse(level, t, o, SearchPages(level, size))
    {
      RefusedIsInUse(level, t, o, SearchPages(level, size));
    }
  }

  const GLOBAL_PAGES_START_IDX: nat := NPAGES / 2
  const N_GLOBAL_TABLES: nat := 2
  const KERNEL_STATIC_PT_IDX: nat := 511

  predicate IsGlobalSlot(i: nat)
  {
    GLOBAL_PAGES_START_IDX <= i < GLOBAL_PAGES_START_IDX + N_GLOBAL_TABLES || i == KERNEL_STATIC_PT_IDX
  }

  /** A new address space: the global tables are in place, and everything else is free. */
  method NewContext(huge: nat, globalFlags: seq<PageFlags>, staticFlags: PageFlags) returns (c: PageAllocator)
    requires 1 <= huge && |globalFlags| == N_GLOBAL_TABLES
    ensures fresh(c) && c.Valid() && c.huge == huge && c.level == 4 && c.offset == 0 && c.contents == map[]
    ensures Tidy(4, c.table) && !c.isGlobal
    ensures forall i :: 0 <= i < N_GLOBAL_TABLES ==> SharedWith(c.table, GLOBAL_PAGES_START_IDX + i, globalFlags[i])
    ensures SharedWith(c.table, KERNEL_STATIC_PT_IDX, staticFlags)
    ensures forall v: nat :: ViewAt(4, c.table, v) == if IsGlobalSlot(v / PageSize(4)) then Used(4, Shared) else Free
  {
    hide PageTables.Valid, Consistent, Get, ViewAt, PageSize, Trimmed, CodesExact, SharedWith, SameExcept;
    c := new PageAllocator(huge, 4, 0, false);
    FreshIsEmpty();
    for i := 0 to N_GLOBAL_TABLES
      invariant fresh(c) && c.Valid() && c.contents == map[]
      invariant c.huge == huge && c.level == 4 && c.offset == 0 && !c.isGlobal && Tidy(4, c.table)
      invariant forall j :: 0 <= j < i ==> SharedWith(c.table, GLOBAL_PAGES_START_IDX + j, globalFlags[j])
      invariant forall j :: GLOBAL_PAGES_START_IDX + i <= j < NPAGES ==> Get(c.table.bitmap, j) == EMPTY
      invariant forall v: nat :: ViewAt(4, c.table, v) ==
                  if GLOBAL_PAGES_START_IDX <= v / PageSize(4) < GLOBAL_PAGES_START_IDX + i then Used(4, Shared)
                  else Free
    {
      ghost var before := c.table;
      c.PutGlobalTable(GLOBAL_PAGES_START_IDX + i, globalFlags[i]);
      SharedStay(before, c.table, GLOBAL_PAGES_START_IDX + i, i, globalFlags);
    }
    ghost var before := c.table;
    c.PutGlobalTable(KERNEL_STATIC_PT_IDX, staticFlags);
    SharedStay(before, c.table, KERNEL_STATIC_PT_IDX, N_GLOBAL_TABLES, globalFlags);
  }

  function WithGlobal(isGlobal: bool, flags: PageFlags): PageFlags
  {
    if isGlobal then flags.(m := flags.m.(global := true)) else flags
  }

  /** The address is mapped to `phys` with the flags asked for, and globally if `global` says so. */
  ghost predicate Translates(view: View, phys: nat, flags: PageFlags, global: bool)
  {
    && view.Used? && view.mapping.Phys? && view.mapping.addr == phys
    && view.mapping.flags.t == flags.t && view.mapping.flags.m.global == global
    && view.mapping.flags.m.pinned == flags.m.pinned && view.mapping.flags.m.noCache == flags.m.noCache
    && view.mapping.flags.m.writeThrough == flags.m.writeThrough
  }

  lemma RangeTranslates(level: nat, t: Table, a: Alloc, base: nat, flags: PageFlags, isGlobal: bool)
    ensures ShowsRange(level, t, a, base, WithGlobal(isGlobal, flags)) ==>
      forall v: nat :: Covers(a, v) ==>
        Translates(ViewAt(level, t, v), base + (v - StartAddr(a)), flags, flags.m.global || isGlobal)
  {
    hide ViewAt, StartAddr, EndAddr;
  }

  // ---- Shared tables ----

  function SharedTable(t: Table, index: nat, flags: PageFlags): Table
    requires index < |t.entries| && index < NPAGES
  {
    var e := AddSubtableFlags(true, SubtableEntry(), WithGlobal(true, flags));
    SetEntry(t, index, e).(bitmap := Set(t.bitmap, index, FULL))
  }

  /** The slot was free and now belongs to somebody else; no other address changed. */
  ghost predicate SharedAt(level: nat, t: Table, t': Table, index: nat)
  {
    forall v: nat ::
      if v / PageSize(level) == index then ViewAt(level, t, v) == Free && ViewAt(level, t', v) == Used(level, Shared)
      else ViewAt(level, t', v) == ViewAt(level, t, v)
  }

  /** The entry leads to the other table and grants what was asked for, globally. */
  ghost predicate SharedWith(t: Table, index: nat, flags: PageFlags)
  {
    && index < |t.entries| && t.entries[index].Link?
    && var f := DeserFlags(t.entries[index].bits);
       && f.t == flags.t && f.m.global && f.m.pinned == flags.m.pinned
       && f.m.noCache == flags.m.noCache && f.m.writeThrough == flags.m.writeThrough
  }

  lemma SharedStay(t: Table, t': Table, index: nat, n: nat, flags: seq<PageFlags>)
    requires n <= |flags| && GLOBAL_PAGES_START_IDX + n <= index && SameExcept(t, t', index)
    requires forall j :: 0 <= j < n ==> SharedWith(t, GLOBAL_PAGES_START_IDX + j, flags[j])
    ensures forall j :: 0 <= j < n ==> SharedWith(t', GLOBAL_PAGES_START_IDX + j, flags[j])
  {
    hide Get;
    forall j | 0 <= j < n
      ensures SharedWith(t', GLOBAL_PAGES_START_IDX + j, flags[j])
    {
      assert SharedWith(t, GLOBAL_PAGES_START_IDX + j, flags[j]);
      assert SameSlot(t, t', GLOBAL_PAGES_START_IDX + j);
    }
  }

  lemma SharedTablePut(level: nat, t: Table, index: nat, flags: PageFlags)
    requires PageTables.Valid(level, t) && index < NPAGES && Get(t.bitmap, index) == EMPTY
    ensures var t' := SharedTable(t, index, flags);
            && PageTables.Valid(level, t') && SharedAt(level, t, t', index)
            && SameExcept(t, t', index) && t'.subs[index].None?
            && Get(t'.bitmap, index) == FULL && SharedWith(t', index, flags)
            && forall i :: 0 <= i < NPAGES && i != index ==> Get(t'.bitmap, i) == Get(t.bitmap, i)
  {
    hide PageTables.Valid, Get, Set, PageSize;
    Sized(level, t);
    var t' := SharedTable(t, index, flags);
    SetGet(t.bitmap, index, FULL);
    EmptySlotView(level, t, index, 0);
    OneSlot(level, t, t', index);
    forall v: nat
      ensures v / PageSize(level) == index ==>
        ViewAt(level, t, v) == Free && ViewAt(level, t', v) == Used(level, Shared)
      ensures v / PageSize(level) != index ==> ViewAt(level, t', v) == ViewAt(level, t, v)
    {
      if v / PageSize(level) == index {
        TopLevel(level, t);
        EmptySlotView(level, t, index, v % PageSize(level));
      }
    }
  }

  lemma TopLevel(level: nat, t: Table)
    requires PageTables.Valid(level, t)
    ensures level >= 1
  {
  }

  lemma AfterShared(huge: nat, level: nat, t: Table, t': Table, contents: map<Alloc, Content>, index: nat)
    requires PageTables.Valid(level, t) && PageTables.Valid(level, t') && Consistent(huge, level, t, contents)
    requires SharedAt(level, t, t', index)
    ensures Consistent(huge, level, t', contents)
  {
    hide PageTables.Valid, LiveIn, Apart, ViewAt, StartAddr, EndAddr, PageSize;
    forall a | a in contents
      ensures LiveIn(huge, level, t', a, contents[a])
    {
      forall v: nat | Covers(a, v)
        ensures ViewAt(level, t', v) == ViewAt(level, t, v)
      {
        OwnedOnce(huge, level, t, contents, v);
      }
      LiveElsewhere(huge, level, t, t', a, contents[a]);
    }
  }
}
