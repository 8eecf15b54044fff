/** Page-table entries and their flags, as the x86-64 tables store them.
    The no-execute and global bits are enabled, as in the default build. */
module Entries {
  import opened Layout

  /** Flags that every level on the way to a page has to grant. */
  datatype TransitiveFlags = TransitiveFlags(user: bool, write: bool, exec: bool)

  /** Flags that concern one mapping only. */
  datatype MappingFlags = MappingFlags(global: bool, pinned: bool, noCache: bool, writeThrough: bool)

  datatype PageFlags = PageFlags(t: TransitiveFlags, m: MappingFlags)

  const NO_TRANSITIVE: TransitiveFlags := TransitiveFlags(false, false, false)
  const NO_MAPPING: MappingFlags := MappingFlags(false, false, false, false)
  const NO_FLAGS: PageFlags := PageFlags(NO_TRANSITIVE, NO_MAPPING)

  predicate Within(f: TransitiveFlags, g: TransitiveFlags)
  {
    (f.user ==> g.user) && (f.write ==> g.write) && (f.exec ==> g.exec)
  }

  function Both(f: TransitiveFlags, g: TransitiveFlags): TransitiveFlags
  {
    TransitiveFlags(f.user && g.user, f.write && g.write, f.exec && g.exec)
  }

  /** The hardware bits of a present entry, apart from PRESENT itself and the page-size bit, which
      follow from the kind of entry and its level. */
  datatype Bits = Bits(userAccessible: bool, writable: bool, noExecute: bool,
                       global: bool, pinned: bool, noCache: bool, writeThrough: bool)

  const DEFAULT_BITS: Bits := Bits(false, false, true, false, false, false, false)

  /** `Unused` is the all-zero word. `Absent` is a word with PRESENT clear and the data above it.
      `Mapped` points at a page frame, `Link` at a table one level down. */
  datatype Entry =
    | Unused
    | Absent(data: nat)
    | Mapped(addr: nat, bits: Bits)
    | Link(bits: Bits)

  /** The data of an entry that is allocated but not mapped yet. */
  const RESERVED: nat := 0xFFFF_FFFE_0000

  function CalcFlags(includeNonTransitive: bool, previous: Bits, add: PageFlags): Bits
  {
    Bits(previous.userAccessible || add.t.user,
         previous.writable || add.t.write,
         previous.noExecute && !add.t.exec,
         previous.global || (includeNonTransitive && add.m.global),
         previous.pinned || (includeNonTransitive && add.m.pinned),
         previous.noCache || (includeNonTransitive && add.m.noCache),
         previous.writeThrough || (includeNonTransitive && add.m.writeThrough))
  }

  function DeserFlags(bits: Bits): PageFlags
  {
    PageFlags(TransitiveFlags(bits.userAccessible, bits.writable, !bits.noExecute),
              MappingFlags(bits.global, bits.pinned, bits.noCache, bits.writeThrough))
  }

  function SubtableEntry(): Entry
  {
    Link(DEFAULT_BITS)
  }

  /** Frame addresses have 52 bits, the low 12 of them zero; anything else is refused by a panic. */
  const PHYS_LIMIT: nat := 0x10_0000_0000_0000

  function HugeEntry(physAddr: nat, flags: PageFlags): Entry
    requires physAddr < PHYS_LIMIT && physAddr % MIN_PAGE_SIZE == 0
  {
    Mapped(physAddr, CalcFlags(true, DEFAULT_BITS, flags))
  }

  /** The data is shifted left by one within a 64-bit word; a word of zero reads as unused. */
  function AbsentEntry(data: nat): Entry
  {
    var word := data * 2 % WORD;
    if word == 0 then Unused else Absent(word / 2)
  }

  function AddSubtableFlags(includeNonTransitive: bool, e: Entry, flags: PageFlags): Entry
    requires e.Link?
  {
    Link(CalcFlags(includeNonTransitive, e.bits, flags))
  }

  /** What a present entry lets through. */
  function EntryFlags(e: Entry): TransitiveFlags
  {
    match e
    case Mapped(_, bits) => DeserFlags(bits).t
    case Link(bits) => DeserFlags(bits).t
    case _ => NO_TRANSITIVE
  }

  /** Writing flags into an entry and reading them back loses nothing, in either direction. */
  lemma FlagsRoundTrip(flags: PageFlags, bits: Bits)
    ensures DeserFlags(CalcFlags(true, DEFAULT_BITS, flags)) == flags
    ensures CalcFlags(true, DEFAULT_BITS, DeserFlags(bits)) == bits
  {
  }

  /** Adding flags to a sub-table entry grants exactly the union; the flags of one mapping are left out. */
  lemma FlagsUnion(flags: PageFlags, bits: Bits)
    ensures var t := DeserFlags(CalcFlags(false, bits, flags)).t;
            var was := DeserFlags(bits).t;
            && Within(was, t) && Within(flags.t, t)
            && forall g :: Within(was, g) && Within(flags.t, g) ==> Within(t, g)
    ensures DeserFlags(CalcFlags(false, bits, flags)).m == DeserFlags(bits).m
  {
  }

  /** What two levels let through together is what both of them grant. */
  lemma FlagsMeet(f: TransitiveFlags, g: TransitiveFlags, h: TransitiveFlags)
    ensures Within(h, Both(f, g)) <==> Within(h, f) && Within(h, g)
  {
  }

  /** Absent data survives a write and a read exactly when it fits 63 bits, and stays distinguishable
      from an unused entry exactly when its low 63 bits are not all zero. */
  lemma AbsentRoundTrip(data: nat)
    ensures AbsentEntry(data) == Unused <==> data % (WORD / 2) == 0
    ensures AbsentEntry(data) == Absent(data) <==> 0 < data < WORD / 2
    ensures AbsentEntry(data).Absent? ==> AbsentEntry(AbsentEntry(data).data) == AbsentEntry(data)
  {
  }
}
