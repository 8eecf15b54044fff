/** Putting the items of an allocation together: sorting them by offset, and the shape that comes out. */
module Assembly {
  import opened Options
  import opened Layout
  import opened PageTables
  import opened Allocations

  /** Items that own whole consecutive slots from `start` on. */
  ghost predicate WholeItems(huge: nat, level: nat, t: Table, items: seq<Item>, start: nat)
    requires WellSized(t)
  {
    && (forall k :: 0 <= k < |items| ==> WholeItem(huge, level, t, items[k]))
    && (forall k :: 0 <= k < |items| ==> items[k].index == start + k)
    && (items != [] ==> items[0].offset == 0)
    && (forall k :: 0 < k < |items| ==> items[k].offset == items[k - 1].offset + PageSize(level))
  }

  ghost predicate WholeItem(huge: nat, level: nat, t: Table, item: Item)
    requires WellSized(t)
  {
    && ItemShape(huge, level, item)
    && (level <= huge ==> item.Page?)
    && Lo(item) == 0 && Hi(level, item) == PageSize(level)
    && ItemBacked(item, t)
  }

  lemma ItemBackedFrame(item: Item, t: Table, t': Table)
    requires WellSized(t) && WellSized(t') && ItemBacked(item, t) && SameSlot(t, t', item.index)
    ensures ItemBacked(item, t')
  {
  }

  /** Whole items between an optional first item, which may start late, and an optional last item,
      which may end early. */
  ghost function Pieces(first: Option<Item>, whole: seq<Item>, last: Option<Item>): seq<Item>
  {
    (if first.Some? then [first.value] else []) + whole + (if last.Some? then [last.value] else [])
  }

  /** The pieces of an allocation in slots of `t`: `start` is the slot of the first whole item, and the
      offsets continue where the first item ends. */
  ghost predicate Fitting(huge: nat, level: nat, t: Table, first: Option<Item>, whole: seq<Item>, last: Option<Item>,
                          start: nat)
  {
    var ps := PageSize(level);
    && WellSized(t)
    && (first.Some? || whole != [] || last.Some?)
    && (forall k :: 0 <= k < |whole| ==> WholeItem(huge, level, t, whole[k]) && whole[k].index == start + k)
    && (forall k :: 0 < k < |whole| ==> whole[k].offset == whole[k - 1].offset + ps)
    && (first.Some? ==>
          && ItemShape(huge, level, first.value) && ItemBacked(first.value, t)
          && first.value.index + 1 == start && first.value.offset == 0
          && (whole != [] || last.Some? ==> Hi(level, first.value) == ps))
    && (whole != [] ==> whole[0].offset == if first.Some? then ps - Lo(first.value) else 0)
    && (last.Some? ==>
          && ItemShape(huge, level, last.value) && ItemBacked(last.value, t)
          && last.value.index == start + |whole| && Lo(last.value) == 0
          && last.value.offset == if whole != [] then whole[|whole| - 1].offset + ps
                                  else if first.Some? then ps - Lo(first.value) else 0)
  }

  lemma FittingShape(huge: nat, level: nat, t: Table, first: Option<Item>, whole: seq<Item>, last: Option<Item>,
                     start: nat)
    requires level >= 1 && Fitting(huge, level, t, first, whole, last, start)
    ensures var a := Alloc(Pieces(first, whole, last), PageSize(level)); Shape(huge, level, a) && Backed(a, t)
  {
    hide PageSize, StartAddr, EndAddr;
    var items := Pieces(first, whole, last);
    var skip := if first.Some? then 1 else 0;
    forall k | 0 <= k < |items|
      ensures ItemShape(huge, level, items[k]) && ItemBacked(items[k], t)
      ensures items[k].index + skip == start + k
      ensures k > 0 ==> Lo(items[k]) == 0
      ensures k < |items| - 1 ==> Hi(level, items[k]) == PageSize(level)
      ensures k > 0 ==> items[k].offset == items[k - 1].offset + Hi(level, items[k - 1]) - Lo(items[k - 1])
    {
      if skip <= k < skip + |whole| {
        assert items[k] == whole[k - skip];
        assert WholeItem(huge, level, t, whole[k - skip]);
        if k > skip {
          assert items[k - 1] == whole[k - 1 - skip];
          assert WholeItem(huge, level, t, whole[k - 1 - skip]);
        }
      } else if k == skip + |whole| && whole != [] {
        assert items[k - 1] == whole[|whole| - 1];
        assert WholeItem(huge, level, t, whole[|whole| - 1]);
      }
    }
  }

  ghost predicate SortedByOffset(items: seq<Item>)
  {
    forall j, k :: 0 <= j < k < |items| ==> items[j].offset <= items[k].offset
  }

  method InsertByOffset(sorted: seq<Item>, item: Item) returns (r: seq<Item>)
    requires SortedByOffset(sorted)
    ensures SortedByOffset(r) && multiset(r) == multiset(sorted) + multiset{item}
  {
    var p := |sorted|;
    while p > 0 && sorted[p - 1].offset > item.offset
      invariant 0 <= p <= |sorted|
      invariant forall j :: p <= j < |sorted| ==> sorted[j].offset > item.offset
    {
      p := p - 1;
    }
    r := sorted[..p] + [item] + sorted[p..];
    Inserted(sorted, p, item);
  }

  lemma Inserted(s: seq<Item>, p: nat, item: Item)
    requires p <= |s| && SortedByOffset(s)
    requires p > 0 ==> s[p - 1].offset <= item.offset
    requires p < |s| ==> item.offset <= s[p].offset
    ensures var r := s[..p] + [item] + s[p..];
            SortedByOffset(r) && multiset(r) == multiset(s) + multiset{item}
  {
    var r := s[..p] + [item] + s[p..];
    InsertedMultiset(s, p, item);
    forall j, k | 0 <= j < k < |r|
      ensures r[j].offset <= r[k].offset
    {
      InsertedPair(s, p, item, j, k);
    }
  }

  lemma InsertedMultiset(s: seq<Item>, p: nat, item: Item)
    requires p <= |s|
    ensures multiset(s[..p] + [item] + s[p..]) == multiset(s) + multiset{item}
  {
    assert s == s[..p] + s[p..];
  }

  lemma InsertedPair(s: seq<Item>, p: nat, item: Item, j: nat, k: nat)
    requires p <= |s| && SortedByOffset(s) && j < k <= |s|
    requires p > 0 ==> s[p - 1].offset <= item.offset
    requires p < |s| ==> item.offset <= s[p].offset
    ensures var r := s[..p] + [item] + s[p..]; r[j].offset <= r[k].offset
  {
  }

  /** A stable sort by offset. */
  method SortByOffset(items: seq<Item>) returns (sorted: seq<Item>)
    ensures SortedByOffset(sorted) && multiset(sorted) == multiset(items)
  {
    sorted := [];
    for k := 0 to |items|
      invariant SortedByOffset(sorted) && multiset(sorted) == multiset(items[..k])
    {
      assert items[..k + 1] == items[..k] + [items[k]];
      sorted := InsertByOffset(sorted, items[k]);
    }
    assert items[..|items|] == items;
  }

  /** There is only one way to sort items with different offsets. */
  lemma {:induction false} SortUnique(s: seq<Item>, strict: seq<Item>)
    requires SortedByOffset(s) && multiset(s) == multiset(strict)
    requires forall j, k :: 0 <= j < k < |strict| ==> strict[j].offset < strict[k].offset
    ensures s == strict
    decreases |s|
  {
    assert |s| == |multiset(s)| == |multiset(strict)| == |strict|;
    if s != [] {
      assert s[0] == strict[0] by {
        assert s[0] in multiset(strict) && strict[0] in multiset(s);
        var j :| 0 <= j < |strict| && strict[j] == s[0];
        var k :| 0 <= k < |s| && s[k] == strict[0];
        assert s[0].offset <= s[k].offset;
      }
      assert multiset(s[1..]) == multiset(strict[1..]) by {
        WithoutFirst(s);
        WithoutFirst(strict);
      }
      assert SortedByOffset(s[1..]);
      assert forall j, k :: 0 <= j < k < |strict[1..]| ==> strict[1..][j].offset < strict[1..][k].offset;
      SortUnique(s[1..], strict[1..]);
      assert s == [s[0]] + s[1..] && strict == [strict[0]] + strict[1..];
    }
  }

  lemma WithoutFirst(s: seq<Item>)
    requires s != []
    ensures multiset(s[1..]) == multiset(s) - multiset{s[0]}
  {
    assert s == [s[0]] + s[1..];
  }

  function Shifted(items: seq<Item>, d: nat): (r: seq<Item>)
    ensures |r| == |items|
  {
    seq(|items|, k requires 0 <= k < |items| => items[k].(offset := items[k].offset + d))
  }

  /** Move the items out of the way of a remainder and add it. */
  ghost function Add(items: seq<Item>, rem: Option<(Item, nat)>): seq<Item>
  {
    match rem
    case None => items
    case Some((item, d)) => Shifted(items, d) + [item]
  }

  /** The items with each remainder added in turn. */
  ghost function Gathered(items: seq<Item>, rems: seq<Option<(Item, nat)>>): seq<Item>
  {
    if rems == [] then items
    else Add(Gathered(items, rems[..|rems| - 1]), rems[|rems| - 1])
  }

  lemma GatheredTwo(items: seq<Item>, r0: Option<(Item, nat)>, r1: Option<(Item, nat)>)
    ensures Gathered(items, [r0, r1]) == Add(Add(items, r0), r1)
  {
    hide Add;
    assert [r0, r1][..1] == [r0];
    assert Gathered(items, [r0]) == Add(Gathered(items, [r0][..0]), r0);
  }

  method BuildAllocation(level: nat, contig: seq<Item>, rems: seq<Option<(Item, nat)>>) returns (a: Alloc)
    ensures a.pageSize == PageSize(level)
    ensures SortedByOffset(a.items) && multiset(a.items) == multiset(Gathered(contig, rems))
  {
    var items := contig;
    for r := 0 to |rems|
      invariant items == Gathered(contig, rems[..r])
    {
      assert rems[..r + 1][..r] == rems[..r];
      match rems[r] {
        case None =>
        case Some(pair) =>
          if pair.1 != 0 {
            items := Shifted(items, pair.1);
          } else {
            assert Shifted(items, 0) == items;
          }
          items := items + [pair.0];
      }
    }
    assert rems[..|rems|] == rems;
    var sorted := SortByOffset(items);
    a := Alloc(sorted, PageSize(level));
  }

  lemma ShiftedWhole(huge: nat, level: nat, t: Table, whole: seq<Item>, start: nat, d: nat)
    requires WellSized(t) && WholeItems(huge, level, t, whole, start)
    ensures var r := Shifted(whole, d);
            && (forall k :: 0 <= k < |r| ==> WholeItem(huge, level, t, r[k]) && r[k].index == start + k)
            && (forall k :: 0 < k < |r| ==> r[k].offset == r[k - 1].offset + PageSize(level))
            && (r != [] ==> r[0].offset == d && r[|r| - 1].offset == whole[|whole| - 1].offset + d)
  {
    hide PageSize, WholeItem;
    var r := Shifted(whole, d);
    forall k | 0 <= k < |r|
      ensures WholeItem(huge, level, t, r[k]) && r[k].index == start + k
    {
      ShiftedItem(huge, level, t, whole[k], d);
    }
    forall k | 0 < k < |r|
      ensures r[k].offset == r[k - 1].offset + PageSize(level)
    {
      assert whole[k].offset == whole[k - 1].offset + PageSize(level);
    }
  }

  lemma ShiftedItem(huge: nat, level: nat, t: Table, item: Item, d: nat)
    requires WellSized(t) && WholeItem(huge, level, t, item)
    ensures WholeItem(huge, level, t, item.(offset := item.offset + d))
  {
  }

  lemma FirstPiece(first: Option<Item>, whole: seq<Item>, last: Option<Item>)
    ensures multiset(Pieces(first, whole, last))
         == multiset(Pieces(None, whole, last)) + (if first.Some? then multiset{first.value} else multiset{})
  {
  }

  lemma PiecesEnds(first: Option<Item>, whole: seq<Item>, last: Option<Item>, start: nat, end: nat)
    requires first.Some? || whole != [] || last.Some?
    requires end == start + |whole| && (forall k :: 0 <= k < |whole| ==> whole[k].index == start + k)
    requires (first.Some? ==> first.value.index + 1 == start) && (last.Some? ==> last.value.index == end)
    ensures var items := Pieces(first, whole, last);
            && items != []
            && items[0] == (if first.Some? then first.value else if whole != [] then whole[0] else last.value)
            && items[|items| - 1] == (if last.Some? then last.value
                                      else if whole != [] then whole[|whole| - 1]
                                      else first.value)
            && items[0].index + |items| == (if last.Some? then end + 1 else end)
  {
  }
}
