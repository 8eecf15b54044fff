/** How a range of addresses is cut into whole pages with a remainder before and after. */
module AddressParts {
  import opened Layout
  import opened Strategies

  function StartRemAt(level: nat, addr: nat): nat
  {
    if level > 1 then addr % PageSize(level) else 0
  }

  /** The first slot that is allocated as a whole. */
  function StartIdx(level: nat, addr: nat): nat
  {
    addr / PageSize(level) + if StartRemAt(level, addr) != 0 then 1 else 0
  }

  function StartRemSize(level: nat, addr: nat, size: nat): nat
  {
    var left := PageSize(level) - StartRemAt(level, addr);
    if StartRemAt(level, addr) == 0 then 0 else if size < left then size else left
  }

  /** What is left after the leading remainder. */
  function MainSize(level: nat, addr: nat, size: nat): nat
  {
    if level > 1 then size - StartRemSize(level, addr, size) else size + addr % PageSize(level)
  }

  function EndIdx(level: nat, addr: nat, size: nat): nat
  {
    StartIdx(level, addr) + Pages(level, MainSize(level, addr, size))
  }

  /** The parts of a range that can be allocated: `remainder` bytes at the start of slot `end`, `lead`
      bytes from offset `at` of slot `start - 1`, and the whole slots between. */
  ghost predicate PartsOk(level: nat, start: nat, end: nat, at: nat, lead: nat, remainder: nat)
  {
    && start <= end
    && (remainder != 0 ==> level > 1 && remainder % MIN_PAGE_SIZE == 0 && remainder <= PageSize(level))
    && (at != 0 ==> level > 1 && start > 0 && 0 < lead && at + lead <= PageSize(level))
    && (at != 0 ==> at % MIN_PAGE_SIZE == 0 && lead % MIN_PAGE_SIZE == 0)
    && (at != 0 && (start < end || remainder != 0) ==> at + lead == PageSize(level))
    && (start < end || remainder != 0 || at != 0)
  }

  lemma CropAligned(addr: nat)
    requires addr % MIN_PAGE_SIZE == 0
    ensures CropAddr(addr) % MIN_PAGE_SIZE == 0
  {
  }

  lemma PartsRange(level: nat, size: nat, offset: nat)
    requires level >= 1 && size % MIN_PAGE_SIZE == 0
    ensures var pages, rem := Pages(level, size), Remainder(level, size);
            && SlotAddr(level, offset + pages) + rem == SlotAddr(level, offset) + size
            && SlotAddr(level, offset) + size <= SlotAddr(level, offset + SearchPages(level, size))
  {
  }

  lemma SlotAddrMonotone(level: nat, i: nat, j: nat)
    requires i <= j
    ensures SlotAddr(level, i) <= SlotAddr(level, j)
  {
  }

  /** How a range decomposes into a leading remainder, whole slots and a trailing remainder. */
  lemma AddrParts(level: nat, addr: nat, size: nat)
    requires level >= 1 && size > 0 && size % MIN_PAGE_SIZE == 0 && addr % MIN_PAGE_SIZE == 0
    ensures var ps, at := PageSize(level), StartRemAt(level, addr);
            var lead, main := StartRemSize(level, addr, size), MainSize(level, addr, size);
            var start := StartIdx(level, addr);
            && at % MIN_PAGE_SIZE == lead % MIN_PAGE_SIZE == main % MIN_PAGE_SIZE == 0
            && lead + main == size
            && main == Pages(level, main) * ps + Remainder(level, main)
            && (at == 0 ==> lead == 0 && addr == SlotAddr(level, start))
            && (at != 0 ==>
                  level > 1 && 0 < lead && at + lead <= ps && start >= 1 && addr == SlotAddr(level, start - 1) + at)
            && (at != 0 && main > 0 ==> at + lead == ps)
  {
    hide PageSize;
    var ps := PageSize(level);
    DivBounds(addr, ps);
    if level > 1 {
      RemainderAligned(addr, ps, MIN_PAGE_SIZE);
      AlignedDifference(ps, addr % ps, MIN_PAGE_SIZE);
      AlignedDifference(size, StartRemSize(level, addr, size), MIN_PAGE_SIZE);
    } else {
      OneLevel();
    }
    WholePages(level, MainSize(level, addr, size));
  }

  /** Where the range ends, in terms of the slots. */
  lemma AddrEnd(level: nat, addr: nat, size: nat)
    requires level >= 1 && size > 0 && size % MIN_PAGE_SIZE == 0 && addr % MIN_PAGE_SIZE == 0
    ensures var ps, main, start := PageSize(level), MainSize(level, addr, size), StartIdx(level, addr);
            var rem, end := Remainder(level, main), EndIdx(level, addr, size);
            && (main > 0 ==> addr + size == SlotAddr(level, end) + rem)
            && (main == 0 ==> start > 0)
            && (main == 0 ==>
                  addr + size == SlotAddr(level, start - 1) + StartRemAt(level, addr) + StartRemSize(level, addr, size))
            && (main == 0 <==> Pages(level, main) == 0 && rem == 0)
  {
  }

  lemma MainAreaFits(level: nat, addr: nat, size: nat)
    requires level >= 1 && size > 0 && size % MIN_PAGE_SIZE == 0 && addr % MIN_PAGE_SIZE == 0
    requires addr + size <= Span(level)
    ensures EndIdx(level, addr, size) <= NPAGES
    ensures Remainder(level, MainSize(level, addr, size)) > 0 ==> EndIdx(level, addr, size) < NPAGES
  {
    hide PageSize;
    AddrParts(level, addr, size);
    var ps, start := PageSize(level), StartIdx(level, addr);
    var pages := Pages(level, MainSize(level, addr, size));
    if StartRemAt(level, addr) != 0 {
      MulSucc(start - 1, ps);
    }
    MulAdd(start, pages, ps);
    hide StartRemAt, StartRemSize, StartIdx, MainSize, Pages;
    if start + pages > NPAGES {
      MulStep(NPAGES, start + pages, ps);
    }
  }
}
