/** Sizes of the page-table levels, and the little arithmetic the proofs about addresses rest on. */
module Layout {

  /** Number of entries in a table of any level. */
  const NPAGES: nat := 512

  /** The smallest page: what one entry of a level-1 table covers. */
  const MIN_PAGE_SIZE: nat := 4096

  /** One more than the largest 64-bit word. */
  const WORD: nat := 0x1_0000_0000_0000_0000

  /** Virtual addresses are cropped to their low 48 bits. */
  const VMEM_SIZE: nat := 0x1_0000_0000_0000

  /** Bytes covered by one entry of a table of the given level (levels count from 1). */
  function PageSize(level: nat): (s: nat)
    ensures s >= MIN_PAGE_SIZE && s % MIN_PAGE_SIZE == 0
  {
    if level <= 1 then MIN_PAGE_SIZE else NPAGES * PageSize(level - 1)
  }

  /** Bytes covered by a whole table. */
  function Span(level: nat): (s: nat)
  {
    NPAGES * PageSize(level)
  }

  /** The address, relative to the start of its table, at which slot `i` begins. */
  function SlotAddr(level: nat, i: nat): (r: nat)
  {
    i * PageSize(level)
  }

  function RoundDown(x: nat, d: nat): nat
    requires d > 0
  {
    x / d * d
  }

  function CropAddr(addr: nat): (r: nat)
    ensures r < VMEM_SIZE && (addr < VMEM_SIZE ==> r == addr)
  {
    addr % VMEM_SIZE
  }

  lemma SpanBelow(level: nat)
    requires level > 1
    ensures Span(level - 1) == PageSize(level)
  {
  }

  lemma SpanFitsVmem(level: nat)
    requires level <= 4
    ensures Span(level) <= VMEM_SIZE && Span(4) == VMEM_SIZE
  {
    assert PageSize(2) == 0x20_0000;
    assert PageSize(3) == 0x4000_0000;
    assert PageSize(4) == 0x80_0000_0000;
  }

  lemma MulMonotone(a: nat, b: nat, d: nat)
    requires a <= b
    ensures a * d <= b * d
  {
  }

  lemma MulSucc(a: nat, d: nat)
    ensures (a + 1) * d == a * d + d
  {
  }

  lemma MulAssoc(x: nat, y: nat, z: nat)
    ensures x * (y * z) == (x * y) * z
  {
  }

  lemma MulAdd(a: nat, b: nat, d: nat)
    ensures (a + b) * d == a * d + b * d
  {
  }

  lemma SlotAddrSucc(level: nat, i: nat)
    ensures SlotAddr(level, 0) == 0
    ensures SlotAddr(level, i + 1) == SlotAddr(level, i) + PageSize(level)
  {
  }

  lemma SlotAddrStep(level: nat, i: nat, j: nat)
    requires i < j
    ensures SlotAddr(level, i) + PageSize(level) <= SlotAddr(level, j)
    ensures SlotAddr(level, NPAGES) == Span(level)
  {
  }

  lemma MultipleSum(i: nat, m: nat, d: nat, x: nat)
    requires d > 0 && x % d == 0
    ensures (i * (m * d) + x) % d == 0
  {
    var q := i * m + x / d;
    assert x == x / d * d;
    assert i * (m * d) == i * m * d;
    assert q * d == i * m * d + x / d * d;
    SlotOffset(q, 0, d);
  }

  lemma MulStep(a: nat, b: nat, d: nat)
    requires a < b
    ensures a * d + d <= b * d
  {
    assert (a + 1) * d == a * d + d;
    MulMonotone(a + 1, b, d);
  }

  lemma DivBounds(v: nat, d: nat)
    requires d > 0
    ensures v / d * d <= v < (v / d + 1) * d
    ensures v % d == v - v / d * d && 0 <= v % d < d
  {
  }

  /** An address lies in slot `i` exactly when dividing by the slot size gives `i`. */
  lemma DivUnique(v: nat, d: nat, i: nat)
    requires d > 0 && i * d <= v < (i + 1) * d
    ensures v / d == i && v % d == v - i * d
  {
    DivBounds(v, d);
    var q := v / d;
    if q < i {
      MulMonotone(q + 1, i, d);
    } else if q > i {
      MulMonotone(i + 1, q, d);
    }
  }

  lemma SlotOffset(i: nat, o: nat, d: nat)
    requires o < d
    ensures (i * d + o) / d == i && (i * d + o) % d == o
  {
    assert (i + 1) * d == i * d + d;
    DivUnique(i * d + o, d, i);
  }

  lemma SlotInTable(v: nat, d: nat, n: nat)
    requires d > 0
    ensures v / d < n <==> v < n * d
  {
    DivBounds(v, d);
    if v / d < n {
      MulMonotone(v / d + 1, n, d);
    } else {
      MulMonotone(n, v / d, d);
    }
  }

  lemma RemainderAligned(x: nat, d: nat, g: nat)
    requires g > 0 && d > 0 && d % g == 0 && x % g == 0
    ensures x % d % g == 0
  {
    var a, _ := Divided(x, g);
    var m, _ := Divided(d, g);
    var q, r := Divided(x, d);
    MulAssoc(q, m, g);
    if a < q * m {
      MulStep(a, q * m, g);
    }
    MulAdd(q * m, a - q * m, g);
    SlotOffset(a - q * m, 0, g);
  }

  lemma AlignedDifference(x: nat, y: nat, g: nat)
    requires g > 0 && x % g == 0 && y % g == 0 && y <= x
    ensures (x - y) % g == 0
  {
    DivBounds(x, g);
    DivBounds(y, g);
    var a, b := x / g, y / g;
    if a < b {
      MulStep(a, b, g);
    }
    MulAdd(a - b, b, g);
    SlotOffset(a - b, 0, g);
  }

  /** A range of `n` consecutive slots from `first`, starting `lo` into the first slot and ending `hi`
      into the last, told apart slot by slot. */
  lemma RangeBySlot(d: nat, first: nat, n: nat, lo: nat, hi: nat, i: nat, o: nat)
    requires n >= 1 && lo < d && hi <= d && o < d
    ensures first * d + lo <= i * d + o < (first + n - 1) * d + hi
       <==> first <= i < first + n && (i == first ==> lo <= o) && (i == first + n - 1 ==> o < hi)
  {
    var last := first + n - 1;
    if i < first {
      MulStep(i, first, d);
    } else if i > last {
      MulStep(last, i, d);
    } else {
      if i > first {
        MulStep(first, i, d);
      }
      if i < last {
        MulStep(i, last, d);
      }
    }
  }

  lemma AlignedWithin(x: nat, o: nat, d: nat)
    requires o < d
    ensures x % d == 0 <==> (x + o) % d == o
    ensures o % d == o
  {
    SmallMod(o, d);
    var q, m := Divided(x, d);
    if m + o < d {
      DivUniqueSum(x + o, d, q, m + o);
    } else {
      MulSucc(q, d);
      DivUniqueSum(x + o, d, q + 1, m + o - d);
    }
  }

  lemma SmallMod(o: nat, d: nat)
    requires o < d
    ensures o % d == o
  {
  }

  lemma DivUniqueSum(v: nat, d: nat, q: nat, r: nat)
    requires r < d && v == q * d + r
    ensures v % d == r
  {
    SlotOffset(q, r, d);
  }

  lemma AlignedSum(i: nat, d: nat, x: nat, g: nat)
    requires g > 0 && d % g == 0 && x % g == 0
    ensures (i * d + x) % g == 0
  {
    DivBounds(d, g);
    MultipleSum(i, d / g, g, x);
  }

  lemma AlignedPlus(x: nat, y: nat, g: nat)
    requires g > 0 && x % g == 0 && y % g == 0
    ensures (x + y) % g == 0
  {
    DivBounds(x, g);
    AlignedSum(x / g, g, y, g);
  }

  lemma RemainderOfSum(i: nat, m: nat, d: nat, o: nat)
    requires d > 0
    ensures (i * (m * d) + o) % d == o % d
  {
    assert i * (m * d) == i * m * d;
    RemainderOfMultiple(i * m, d, o);
  }

  lemma RemainderOfMultiple(k: nat, d: nat, o: nat)
    requires d > 0
    ensures (k * d + o) % d == o % d
  {
    var q, r := Divided(o, d);
    MulAdd(k, q, d);
    DivUniqueSum(k * d + o, d, k + q, r);
  }

  lemma Divided(o: nat, d: nat) returns (q: nat, r: nat)
    requires d > 0
    ensures o == q * d + r && r < d && r == o % d
  {
    q, r := o / d, o % d;
  }
}
