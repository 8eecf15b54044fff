/** Lists of free blocks, one per order, as the set of blocks they hold. */
module FreeLists {
  import opened Options
  import opened Blocks

  ghost function FreeSet(lists: seq<seq<nat>>): set<Block>
  {
    set o, k | 0 <= o < |lists| && 0 <= k < |lists[o]| :: Block(o, lists[o][k])
  }

  ghost predicate Distinct(list: seq<nat>)
  {
    forall j, k :: 0 <= j < k < |list| ==> list[j] != list[k]
  }

  ghost predicate NoDup(lists: seq<seq<nat>>)
  {
    forall o :: 0 <= o < |lists| ==> Distinct(lists[o])
  }

  lemma FreeIff(lists: seq<seq<nat>>, b: Block)
    ensures b in FreeSet(lists) <==> b.order < |lists| && b.addr in lists[b.order]
  {
  }

  method Position(list: seq<nat>, x: nat) returns (i: Option<nat>)
    ensures i.None? ==> x !in list
    ensures i.Some? ==> i.value < |list| && list[i.value] == x && x !in list[..i.value]
  {
    for k := 0 to |list|
      invariant x !in list[..k]
    {
      if list[k] == x {
        return Some(k);
      }
    }
    return None;
  }

  /** The last element takes the place of the removed one. */
  function SwapRemove(list: seq<nat>, i: nat): seq<nat>
    requires i < |list|
  {
    list[i := list[|list| - 1]][..|list| - 1]
  }

  lemma SwapRemoved(list: seq<nat>, i: nat)
    requires i < |list| && Distinct(list)
    ensures Distinct(SwapRemove(list, i))
    ensures forall x :: x in SwapRemove(list, i) <==> x in list && x != list[i]
  {
    var r, n := SwapRemove(list, i), |list| - 1;
    assert forall k :: 0 <= k < n ==> r[k] == if k == i then list[n] else list[k];
    forall x | x in list && x != list[i]
      ensures x in r
    {
      var k :| 0 <= k <= n && list[k] == x;
      assert r[if k == n then i else k] == x;
    }
  }

  function Push(lists: seq<seq<nat>>, o: nat, x: nat): seq<seq<nat>>
    requires o < |lists|
  {
    lists[o := lists[o] + [x]]
  }

  function Remove(lists: seq<seq<nat>>, o: nat, i: nat): seq<seq<nat>>
    requires o < |lists| && i < |lists[o]|
  {
    lists[o := SwapRemove(lists[o], i)]
  }

  lemma Pushed(lists: seq<seq<nat>>, o: nat, x: nat)
    requires o < |lists| && NoDup(lists) && Block(o, x) !in FreeSet(lists)
    ensures NoDup(Push(lists, o, x)) && FreeSet(Push(lists, o, x)) == FreeSet(lists) + {Block(o, x)}
  {
    FreeIff(lists, Block(o, x));
    var lists' := Push(lists, o, x);
    assert Distinct(lists[o]) && Distinct(lists'[o]);
    hide FreeSet, Distinct;
    forall b
      ensures b in FreeSet(lists') <==> b in FreeSet(lists) + {Block(o, x)}
    {
      FreeIff(lists, b);
      FreeIff(lists', b);
    }
  }

  lemma Removed(lists: seq<seq<nat>>, o: nat, i: nat)
    requires o < |lists| && i < |lists[o]| && NoDup(lists)
    ensures NoDup(Remove(lists, o, i)) && FreeSet(Remove(lists, o, i)) == FreeSet(lists) - {Block(o, lists[o][i])}
  {
    var lists' := Remove(lists, o, i);
    SwapRemoved(lists[o], i);
    hide FreeSet, Distinct, SwapRemove;
    forall b
      ensures b in FreeSet(lists') <==> b in FreeSet(lists) - {Block(o, lists[o][i])}
    {
      FreeIff(lists, b);
      FreeIff(lists', b);
    }
  }

  function Larger(i: nat, j: nat): nat
  {
    if i < j then j else i
  }

  function Smaller(i: nat, j: nat): nat
  {
    if i < j then i else j
  }

  /** Removing the later element first keeps the earlier one in place. */
  lemma RemovedBoth(lists: seq<seq<nat>>, o: nat, i: nat, j: nat)
    requires o < |lists| && j < i < |lists[o]| && NoDup(lists)
    ensures var once := Remove(lists, o, i);
            && |once| == |lists| && j < |once[o]|
            && var twice := Remove(once, o, j);
            && |twice| == |lists| && NoDup(twice)
            && FreeSet(twice) == FreeSet(lists) - {Block(o, lists[o][i]), Block(o, lists[o][j])}
  {
    hide FreeSet, NoDup;
    Removed(lists, o, i);
    var once := Remove(lists, o, i);
    assert once[o][j] == lists[o][j];
    Removed(once, o, j);
  }
}
