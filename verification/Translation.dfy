/** When a mapped allocation really translates to the physical range it was given. */
module Translation {
  import opened Layout
  import opened Entries
  import opened PageTables
  import opened Allocations
  import opened Slots
  import opened PageMapping

  ghost function Max(x: nat, y: nat): nat
  {
    if x < y then y else x
  }

  /** The highest level at which the allocation has a page. */
  ghost function LargestLeaf(level: nat, items: seq<Item>): nat
    decreases level, |items|
  {
    if items == [] || level == 0 then 0
    else
      var last := items[|items| - 1];
      Max(LargestLeaf(level, items[..|items| - 1]),
          if last.Page? then level else LargestLeaf(level - 1, last.alloc.items))
  }

  ghost function ItemLeaf(level: nat, item: Item): nat
    requires level >= 1
  {
    if item.Page? then level else LargestLeaf(level - 1, item.alloc.items)
  }

  lemma {:induction false} ItemAtMost(level: nat, items: seq<Item>, k: nat)
    requires level >= 1 && k < |items|
    ensures ItemLeaf(level, items[k]) <= LargestLeaf(level, items)
    decreases |items|
  {
    if k < |items| - 1 {
      ItemAtMost(level, items[..|items| - 1], k);
    }
  }

  lemma {:induction false} LargestItem(level: nat, items: seq<Item>) returns (k: nat)
    requires level >= 1 && items != []
    ensures k < |items| && ItemLeaf(level, items[k]) == LargestLeaf(level, items)
    decreases |items|
  {
    k := |items| - 1;
    if |items| == 1 {
      assert items[..0] == [];
    } else if ItemLeaf(level, items[k]) < LargestLeaf(level, items) {
      k := LargestItem(level, items[..k]);
    }
  }

  /** No leaf is above the highest level. */
  lemma {:induction false} LeafAtMost(huge: nat, level: nat, a: Alloc, v: nat)
    requires Shape(huge, level, a) && Covers(a, v)
    ensures LeafOf(level, a, v).0 <= LargestLeaf(level, a.items)
    decreases level
  {
    CoversAddr(huge, level, a, v);
    var k := v / PageSize(level) - a.items[0].index;
    assert ItemShape(huge, level, a.items[k]);
    ItemAtMost(level, a.items, k);
    hide Shape, PageSize, LargestLeaf, StartAddr, EndAddr;
    if a.items[k].SubTable? {
      LeafAtMost(huge, level - 1, a.items[k].alloc, v % PageSize(level));
    }
  }

  /** Some leaf is at the highest level. */
  lemma {:induction false} LeafReached(huge: nat, level: nat, a: Alloc) returns (v: nat)
    requires Shape(huge, level, a)
    ensures Covers(a, v) && LeafOf(level, a, v).0 == LargestLeaf(level, a.items)
    decreases level
  {
    hide Shape, PageSize, LargestLeaf, StartAddr, EndAddr;
    NonEmpty(huge, level, a);
    var k := LargestItem(level, a.items);
    ItemFacts(huge, level, a, k);
    var o := 0;
    if a.items[k].SubTable? {
      o := LeafReached(huge, level - 1, a.items[k].alloc);
    }
    ItemCovers(huge, level, a, k, o);
    v := a.items[k].index * PageSize(level) + o;
  }

  /** The page walk ends at the level where the allocation has its page. */
  lemma {:induction false} WalkLevel(huge: nat, level: nat, t: Table, a: Alloc, v: nat)
    requires Valid(level, t) && Shape(huge, level, a) && Backed(a, t) && Covers(a, v)
    ensures ViewAt(level, t, v).Used? && ViewAt(level, t, v).level == LeafOf(level, a, v).0
    decreases level
  {
    CoversAddr(huge, level, a, v);
    var i, o := v / PageSize(level), v % PageSize(level);
    var item := a.items[i - a.items[0].index];
    assert item.index == i;
    assert ItemBacked(item, t) && ItemShape(huge, level, item);
    hide Shape, PageSize, StartAddr, EndAddr, Valid;
    if item.SubTable? {
      SubView(level, t, i, o);
      SlotSub(level, t, i);
      WalkLevel(huge, level - 1, t.subs[i].value, item.alloc, o);
    }
  }

  // ---- Congruences ----

  lemma Congruent(base: nat, start: nat, v: nat, d: nat)
    requires d > 0 && start <= v
    ensures (base + v - start) % d == v % d <==> base % d == start % d
  {
    var x := v - start;
    SameShift(base, start, x, d);
  }

  lemma SameShift(x: nat, y: nat, z: nat, d: nat)
    requires d > 0
    ensures (x + z) % d == (y + z) % d <==> x % d == y % d
  {
    var qx, rx := Divided(x, d);
    var qy, ry := Divided(y, d);
    var qz, rz := Divided(z, d);
    ShiftedRemainder(qx, rx, qz, rz, d);
    ShiftedRemainder(qy, ry, qz, rz, d);
  }

  lemma ShiftedRemainder(q: nat, r: nat, p: nat, s: nat, d: nat)
    requires r < d && s < d
    ensures ((q * d + r) + (p * d + s)) % d == if r + s < d then r + s else r + s - d
  {
    MulAdd(q, p, d);
    MulSucc(q + p, d);
    if r + s < d {
      DivUniqueSum((q * d + r) + (p * d + s), d, q + p, r + s);
    } else {
      DivUniqueSum((q * d + r) + (p * d + s), d, q + p + 1, r + s - d);
    }
  }

  lemma CongruentBelow(x: nat, y: nat, l: nat, level: nat)
    requires 1 <= l <= level && x % PageSize(level) == y % PageSize(level)
    ensures x % PageSize(l) == y % PageSize(l)
  {
    hide PageSize;
    var m := PageRatio(level, l);
    var d := PageSize(l);
    var qx, rx := Divided(x, PageSize(level));
    var qy, ry := Divided(y, PageSize(level));
    RemainderOfSum(qx, m, d, rx);
    RemainderOfSum(qy, m, d, ry);
  }

  // ---- The main result ----

  /** Address by address, the allocation shows the physical range that starts at `base`. */
  ghost predicate ShowsRange(level: nat, t: Table, a: Alloc, base: nat, flags: PageFlags)
  {
    forall v: nat :: Covers(a, v) ==>
      ViewAt(level, t, v).Used? && ViewAt(level, t, v).mapping == Phys(base + v - StartAddr(a), flags)
  }

  /** The base lies in its largest page as the allocation does. */
  ghost predicate AlignedLike(level: nat, a: Alloc, base: nat)
  {
    var d := PageSize(LargestLeaf(level, a.items));
    base % d == StartAddr(a) % d
  }

  /** Not the translation to `addr`: none at all, or one that is 4 KiB off. */
  ghost predicate Misses(mapping: Mapping, addr: nat, flags: PageFlags)
  {
    || mapping == Malformed(addr, flags)
    || (addr >= MIN_PAGE_SIZE && mapping == OtherType(addr - MIN_PAGE_SIZE, flags))
  }

  /** Setting a base address maps the whole range exactly when the base is aligned for the largest page
      in the allocation; otherwise some page translates nothing, or to a frame that is 4 KiB lower. */
  lemma MapsExactly(huge: nat, level: nat, t: Table, t': Table, a: Alloc, base: nat, flags: PageFlags)
    requires Valid(level, t) && Shape(huge, level, a) && Backed(a, t)
    requires Acted(level, t, t', a, 0, MapTo(base, flags))
    ensures ShowsRange(level, t', a, base, flags) <==> AlignedLike(level, a, base)
    ensures !AlignedLike(level, a, base) ==>
      exists v: nat ::
        && Covers(a, v) && ViewAt(level, t', v).Used?
        && Misses(ViewAt(level, t', v).mapping, base + v - StartAddr(a), flags)
  {
    hide PageSize, LargestLeaf, Shape, Backed, Valid, StartAddr, EndAddr, LeafOf, ViewAt;
    var top := LargestLeaf(level, a.items);
    if AlignedLike(level, a, base) {
      forall v: nat | Covers(a, v)
        ensures ViewAt(level, t', v).Used? && ViewAt(level, t', v).mapping == Phys(base + v - StartAddr(a), flags)
      {
        WalkLevel(huge, level, t, a, v);
        LeafAtMost(huge, level, a, v);
        PathOffset(huge, level, a, v);
        var l := LeafOf(level, a, v).0;
        CongruentBelow(base, StartAddr(a), l, top);
        Congruent(base, StartAddr(a), v, PageSize(l));
      }
    } else {
      var v := LeafReached(huge, level, a);
      WalkLevel(huge, level, t, a, v);
      Congruent(base, StartAddr(a), v, PageSize(top));
      assert ViewAt(level, t', v) == ActedView(ViewAt(level, t, v), MapTo(base, flags), v - StartAddr(a), v);
    }
  }
}
