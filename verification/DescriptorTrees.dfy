/** The tree of descriptor tables: slots are found and reserved on the path that the digits of an id
    give, by any number of threads at once. */
module DescriptorTrees {
  import opened Options
  import opened DescriptorSlots

  /** Slot `k` of the table that `path` leads to. */
  datatype Loc = Loc(path: seq<nat>, k: nat)

  /** A thread walking down: the table it is at, what is left of the id, and the slot to try next. */
  datatype Walk = Walk(path: seq<nat>, indexer: nat, k: nat)

  datatype Outcome = Pending | Found(loc: Loc) | NotFound

  /** `seen` is where the id was when the search began; the search itself does not know. */
  datatype Search = Search(id: nat, walk: Walk, outcome: Outcome, seen: Option<Loc>)

  /** Tables of `n` slots with up to `m` sub-tables each. Slots that were never touched are not listed.
      `allocs` are the ids still looking for a slot. */
  datatype Tree = Tree(n: nat, m: nat, nextId: nat, tables: set<seq<nat>>, cells: map<Loc, Slot>,
                       allocs: map<nat, Walk>, searches: map<nat, Search>)

  datatype TreeStep =
    | BeginAlloc
    | TryReserve(id: nat)
    | DescendAlloc(id: nat)
    | SlotStep(loc: Loc, step: Step)
    | BeginSearch(t: nat, id: nat, seen: Option<Loc>)
    | Look(t: nat)
    | DescendSearch(t: nat)

  function Cell(s: Tree, loc: Loc): Slot
  {
    if loc in s.cells then s.cells[loc] else DescriptorSlots.EMPTY
  }

  /** The first walk position for an id. */
  function Root(id: nat): Walk
  {
    Walk([], id, 0)
  }

  /** On to the sub-table that the next digit selects. */
  function Down(m: nat, w: Walk): Walk
    requires m > 0
  {
    Walk(w.path + [w.indexer % m], w.indexer / m, 0)
  }

  function Here(w: Walk): Loc
  {
    Loc(w.path, w.k)
  }

  function TryNext(w: Walk): Walk
  {
    w.(k := w.k + 1)
  }

  /** A step of some thread, if it can be taken. */
  function ApplyTree(s: Tree, step: TreeStep): Option<Tree>
    requires s.m > 0
  {
    match step
    case BeginAlloc =>
      Some(s.(nextId := s.nextId + 1, allocs := s.allocs[s.nextId := Root(s.nextId)]))
    case TryReserve(id) =>
      if id !in s.allocs || s.allocs[id].k >= s.n then None
      else
        var loc := Here(s.allocs[id]);
        var reserved := Apply(Cell(s, loc), Reserve(id));
        if reserved.Some? then Some(s.(cells := s.cells[loc := reserved.value], allocs := s.allocs - {id}))
        else Some(s.(allocs := s.allocs[id := TryNext(s.allocs[id])]))
    case DescendAlloc(id) =>
      if id !in s.allocs || s.allocs[id].k < s.n then None
      else
        var w := Down(s.m, s.allocs[id]);
        Some(s.(tables := s.tables + {w.path}, allocs := s.allocs[id := w]))
    case SlotStep(loc, local) =>
      if local.Reserve? || loc !in s.cells || Apply(s.cells[loc], local).None? then None
      else Some(s.(cells := s.cells[loc := Apply(s.cells[loc], local).value]))
    case BeginSearch(t, id, seen) =>
      if t in s.searches || (seen.Some? && (seen.value !in s.cells || s.cells[seen.value].id != id)) then None
      else Some(s.(searches := s.searches[t := Search(id, Root(id), Pending, seen)]))
    case Look(t) =>
      if t !in s.searches || s.searches[t].outcome != Pending || s.searches[t].walk.k >= s.n then None
      else
        var search := s.searches[t];
        var loc := Here(search.walk);
        var next := if Cell(s, loc).id == search.id then search.(outcome := Found(loc))
                    else search.(walk := TryNext(search.walk));
        Some(s.(searches := s.searches[t := next]))
    case DescendSearch(t) =>
      if t !in s.searches || s.searches[t].outcome != Pending || s.searches[t].walk.k < s.n then None
      else
        var search := s.searches[t];
        var w := Down(s.m, search.walk);
        var next := if w.path in s.tables then search.(walk := w) else search.(outcome := NotFound);
        Some(s.(searches := s.searches[t := next]))
  }

  function EmptyTree(n: nat, m: nat): Tree
  {
    Tree(n, m, 1, {[]}, map[], map[], map[])
  }

  // ---- The path of an id ----

  /** What is left of an id after `d` digits. */
  ghost function Shift(m: nat, id: nat, d: nat): nat
    requires m > 0
  {
    if d == 0 then id else Shift(m, id, d - 1) / m
  }

  /** The first `d` digits in base `m`, least significant first. */
  ghost function Digits(m: nat, id: nat, d: nat): (p: seq<nat>)
    requires m > 0
    ensures |p| == d
  {
    if d == 0 then [] else Digits(m, id, d - 1) + [Shift(m, id, d - 1) % m]
  }

  lemma {:induction false} DigitsPrefix(m: nat, id: nat, d: nat, e: nat)
    requires m > 0 && d <= e
    ensures Digits(m, id, e)[..d] == Digits(m, id, d)
  {
    if d < e {
      DigitsPrefix(m, id, d, e - 1);
      assert Digits(m, id, e)[..d] == Digits(m, id, e - 1)[..d];
    }
  }

  ghost predicate OnPath(m: nat, id: nat, path: seq<nat>)
    requires m > 0
  {
    path == Digits(m, id, |path|)
  }

  /** A walk follows the digits of its id through tables that exist. */
  ghost predicate Follows(s: Tree, id: nat, w: Walk)
    requires s.m > 0
  {
    OnPath(s.m, id, w.path) && w.indexer == Shift(s.m, id, |w.path|) && w.path in s.tables && w.k <= s.n
  }

  lemma DownFollows(m: nat, id: nat, w: Walk)
    requires m > 0 && OnPath(m, id, w.path) && w.indexer == Shift(m, id, |w.path|)
    ensures var d := Down(m, w); OnPath(m, id, d.path) && d.indexer == Shift(m, id, |d.path|)
  {
  }

  // ---- Invariant ----

  /** The slot has the id, or its reserver is about to store it. */
  ghost predicate Claims(c: Slot, id: nat)
  {
    id != 0 && (c.id == id || Storing(c, id))
  }

  ghost predicate Storing(c: Slot, id: nat)
  {
    (c.phase.ResetB? || c.phase.StoreId?) && c.phase.newId == id
  }

  ghost predicate TablesOk(s: Tree)
  {
    && s.n > 0 && s.m > 0 && [] in s.tables
    && (forall p :: p in s.tables && p != [] ==> p[..|p| - 1] in s.tables)
    && (forall loc :: loc in s.cells ==> loc.path in s.tables && loc.k < s.n && DescriptorSlots.Inv(s.cells[loc]))
  }

  /** Ids that were given out are either looking for a slot or have claimed one on their path, and
      no two slots claim the same. */
  ghost predicate IdsOk(s: Tree)
    requires s.m > 0
  {
    && (forall loc, id: nat :: loc in s.cells && Claims(s.cells[loc], id) ==> ClaimOk(s, loc, id))
    && (forall loc, loc', id: nat ::
          loc in s.cells && loc' in s.cells && Claims(s.cells[loc], id) && Claims(s.cells[loc'], id) ==> loc == loc')
    && (forall loc, id: nat :: loc in s.cells && Storing(s.cells[loc], id) ==> s.cells[loc].id != id)
    && (forall id :: id in s.allocs ==> AllocOk(s, id))
    && s.nextId > 0
  }

  ghost predicate ClaimOk(s: Tree, loc: Loc, id: nat)
    requires s.m > 0
  {
    OnPath(s.m, id, loc.path) && id < s.nextId && id !in s.allocs
  }

  ghost predicate AllocOk(s: Tree, id: nat)
    requires s.m > 0 && id in s.allocs
  {
    0 < id < s.nextId && Follows(s, id, s.allocs[id])
  }

  /** The walk has not gone past the location. */
  ghost predicate NotPast(w: Walk, loc: Loc)
  {
    |w.path| < |loc.path| || (|w.path| == |loc.path| && w.k <= loc.k)
  }

  /** As long as the id is where the search should find it, the search has not gone past it. If it is
      there no longer, it is gone for ever. */
  ghost predicate SearchOk(s: Tree, search: Search)
    requires s.m > 0
  {
    && (search.outcome == Pending ==> Follows(s, search.id, search.walk))
    && (search.seen.Some? && search.id != 0 ==>
          && search.seen.value in s.cells
          && Settled(s, search.id, search.seen.value)
          && (s.cells[search.seen.value].id == search.id ==>
                match search.outcome
                case Pending => NotPast(search.walk, search.seen.value)
                case Found(loc) => loc == search.seen.value
                case NotFound => false))
  }

  /** The id was stored at `loc` once, so it is not stored anywhere else and never will be. */
  ghost predicate Settled(s: Tree, id: nat, loc: Loc)
  {
    && id < s.nextId && id !in s.allocs
    && forall loc' :: loc' in s.cells ==> !Storing(s.cells[loc'], id) && (s.cells[loc'].id == id ==> loc' == loc)
  }

  ghost predicate TreeInv(s: Tree)
  {
    && TablesOk(s)
    && IdsOk(s)
    && forall t :: t in s.searches ==> SearchOk(s, s.searches[t])
  }

  // ---- Every step keeps the invariant ----

  ghost predicate BoundedTree(s: Tree, step: TreeStep)
  {
    step.SlotStep? && step.loc in s.cells ==> Bounded(s.cells[step.loc], step.step)
  }

  lemma TreeStepKeeps(s: Tree, step: TreeStep)
    requires TreeInv(s) && BoundedTree(s, step) && ApplyTree(s, step).Some?
    ensures TreeInv(ApplyTree(s, step).value)
  {
    hide TreeInv, ApplyTree;
    match step
    case BeginAlloc => BeginAllocKeeps(s);
    case TryReserve(id) => TryReserveKeeps(s, id);
    case DescendAlloc(id) => DescendAllocKeeps(s, id);
    case SlotStep(loc, local) => SlotStepKeeps(s, loc, local);
    case BeginSearch(t, id, seen) => BeginSearchKeeps(s, t, id, seen);
    case Look(t) => LookKeeps(s, t);
    case DescendSearch(t) => DescendSearchKeeps(s, t);
  }

  /** What every step respects: tables and slots stay, ids are stored only by those who announced it,
      and only an id that is looking for a slot is announced. */
  ghost predicate Evolves(s: Tree, s': Tree)
  {
    && s'.n == s.n && s'.m == s.m && s.tables <= s'.tables && s.nextId <= s'.nextId
    && (forall id :: id in s'.allocs ==> id in s.allocs || id >= s.nextId)
    && (forall loc :: loc in s.cells ==> loc in s'.cells)
    && (forall loc :: loc in s'.cells ==> CellEvolves(s, loc, s'.cells[loc]))
  }

  ghost predicate CellEvolves(s: Tree, loc: Loc, c': Slot)
  {
    var c := Cell(s, loc);
    && (c'.id == c.id || Storing(c, c'.id))
    && (forall id: nat :: Storing(c', id) ==> Storing(c, id) || id in s.allocs)
  }

  lemma FollowsStill(s: Tree, s': Tree, id: nat, w: Walk)
    requires s.m > 0 && Evolves(s, s') && Follows(s, id, w)
    ensures Follows(s', id, w)
  {
  }

  /** A search that does not move itself is not harmed. */
  lemma SearchStill(s: Tree, s': Tree, search: Search)
    requires s.m > 0 && Evolves(s, s') && SearchOk(s, search)
    ensures SearchOk(s', search)
  {
  }

  lemma SearchesStill(s: Tree, s': Tree)
    requires TreeInv(s) && Evolves(s, s') && s'.searches == s.searches
    ensures forall t :: t in s'.searches ==> SearchOk(s', s'.searches[t])
  {
    hide SearchOk, Evolves, TablesOk, IdsOk;
    assert s.m > 0 && s'.m > 0 by { SameArity(s, s'); }
    forall t | t in s'.searches
      ensures SearchOk(s', s'.searches[t])
    {
      SearchStill(s, s', s.searches[t]);
    }
  }

  lemma SameArity(s: Tree, s': Tree)
    requires TablesOk(s) && Evolves(s, s')
    ensures s.m > 0 && s'.m > 0
  {
  }

  /** Only the ids looking for a slot changed. */
  lemma AllocsChange(s: Tree, s': Tree)
    requires s.m > 0 && IdsOk(s) && Evolves(s, s') && s'.cells == s.cells
    requires forall id :: id in s'.allocs ==> AllocOk(s', id)
    ensures IdsOk(s')
  {
  }

  lemma BeginAllocKeeps(s: Tree)
    requires TreeInv(s)
    ensures TreeInv(ApplyTree(s, BeginAlloc).value)
  {
    hide DescriptorSlots.Inv, OnPath, SearchOk, Storing;
    var s' := ApplyTree(s, BeginAlloc).value;
    RootFollows(s, s.nextId);
    SearchesStill(s, s');
    AllocsChange(s, s');
  }

  lemma RootFollows(s: Tree, id: nat)
    requires TablesOk(s)
    ensures Follows(s, id, Root(id))
  {
  }

  lemma TryReserveKeeps(s: Tree, id: nat)
    requires TreeInv(s) && ApplyTree(s, TryReserve(id)).Some?
    ensures TreeInv(ApplyTree(s, TryReserve(id)).value)
  {
    hide DescriptorSlots.Inv, OnPath, SearchOk, Apply, Storing, Claims;
    var s', w := ApplyTree(s, TryReserve(id)).value, s.allocs[id];
    assert AllocOk(s, id);
    if Apply(Cell(s, Here(w)), Reserve(id)).Some? {
      ReservedKeeps(s, id);
    } else {
      AllocsChange(s, s');
      SearchesStill(s, s');
    }
  }

  lemma ReservedKeeps(s: Tree, id: nat)
    requires TreeInv(s) && ApplyTree(s, TryReserve(id)).Some?
    requires Apply(Cell(s, Here(s.allocs[id])), Reserve(id)).Some?
    ensures TreeInv(ApplyTree(s, TryReserve(id)).value)
  {
    hide DescriptorSlots.Inv, OnPath, SearchOk, Apply, IdsOk, Claims;
    var s', loc := ApplyTree(s, TryReserve(id)).value, Here(s.allocs[id]);
    AllocIsOk(s, id);
    CellInv(s, loc);
    StepKeeps(Cell(s, loc), Reserve(id));
    ReserveIs(Cell(s, loc), id);
    ReservedClaims(s, s', loc, id);
    assert Evolves(s, s');
    CellChange(s, s', loc);
    SearchesStill(s, s');
  }

  lemma AllocIsOk(s: Tree, id: nat)
    requires s.m > 0 && IdsOk(s) && id in s.allocs
    ensures AllocOk(s, id)
  {
  }

  lemma CellInv(s: Tree, loc: Loc)
    requires TablesOk(s)
    ensures DescriptorSlots.Inv(Cell(s, loc))
  {
  }

  lemma ReserveIs(c: Slot, id: nat)
    requires Apply(c, Reserve(id)).Some?
    ensures var c' := Apply(c, Reserve(id)).value;
            c.phase == Idle && c'.phase == ResetB(id) && c'.id == c.id && c'.slotA == c.slotA
  {
  }

  /** The reserved slot claims its old id and the new one. */
  lemma ReservedClaims(s: Tree, s': Tree, loc: Loc, id: nat)
    requires s.m > 0 && IdsOk(s) && id in s.allocs && s'.m == s.m && s'.nextId == s.nextId
    requires s'.allocs == s.allocs - {id}
    requires loc == Here(s.allocs[id]) && loc in s'.cells
    requires s'.cells[loc].phase == ResetB(id) && s'.cells[loc].id == Cell(s, loc).id
    ensures forall x: nat :: Claims(s'.cells[loc], x) ==> ClaimOk(s', loc, x) && NotElsewhere(s, loc, x)
    ensures s'.cells[loc].id != id
  {
    hide OnPath;
    assert AllocOk(s, id);
    forall x: nat | Claims(s'.cells[loc], x)
      ensures ClaimOk(s', loc, x) && NotElsewhere(s, loc, x)
    {
      if x == id {
        forall l | l in s.cells
          ensures !Claims(s.cells[l], id)
        {
          assert Claims(s.cells[l], id) ==> ClaimOk(s, l, id);
        }
      } else {
        assert Claims(s.cells[loc], x);
        assert ClaimOk(s, loc, x);
      }
    }
    assert loc in s.cells && Claims(s.cells[loc], id) ==> ClaimOk(s, loc, id);
  }

  /** One slot changed, and whatever it claims now is on its path and claimed by no other. */
  lemma CellChange(s: Tree, s': Tree, loc: Loc)
    requires s.m > 0 && IdsOk(s) && Evolves(s, s') && loc in s'.cells && s'.cells == s.cells[loc := s'.cells[loc]]
    requires forall id :: id in s'.allocs ==> id in s.allocs && s'.allocs[id] == s.allocs[id]
    requires forall id: nat :: Claims(s'.cells[loc], id) ==> ClaimOk(s', loc, id) && NotElsewhere(s, loc, id)
    requires forall id: nat :: Storing(s'.cells[loc], id) ==> s'.cells[loc].id != id
    ensures IdsOk(s')
  {
    hide OnPath, Storing, Claims, CellEvolves;
    forall id | id in s'.allocs
      ensures AllocOk(s', id)
    {
      assert AllocOk(s, id);
      FollowsStill(s, s', id, s.allocs[id]);
    }
    forall l, id: nat | l in s'.cells && Claims(s'.cells[l], id)
      ensures ClaimOk(s', l, id)
    {
      assert l != loc ==> ClaimOk(s, l, id);
    }
    hide ClaimOk, Follows;
  }

  ghost predicate NotElsewhere(s: Tree, loc: Loc, id: nat)
  {
    forall l :: l in s.cells && l != loc ==> !Claims(s.cells[l], id)
  }

  lemma DescendAllocKeeps(s: Tree, id: nat)
    requires TreeInv(s) && ApplyTree(s, DescendAlloc(id)).Some?
    ensures TreeInv(ApplyTree(s, DescendAlloc(id)).value)
  {
    hide DescriptorSlots.Inv, OnPath, SearchOk, Storing, Down;
    var s', w := ApplyTree(s, DescendAlloc(id)).value, s.allocs[id];
    assert Follows(s, id, w);
    DownFollows(s.m, id, w);
    DownPath(s.m, w);
    SearchesStill(s, s');
    AllocsChange(s, s');
  }

  lemma DownPath(m: nat, w: Walk)
    requires m > 0
    ensures var d := Down(m, w);
            d.k == 0 && d.path != [] && d.path[..|d.path| - 1] == w.path && |d.path| == |w.path| + 1
  {
  }

  lemma SlotStepKeeps(s: Tree, loc: Loc, local: Step)
    requires TreeInv(s) && BoundedTree(s, SlotStep(loc, local)) && ApplyTree(s, SlotStep(loc, local)).Some?
    ensures TreeInv(ApplyTree(s, SlotStep(loc, local)).value)
  {
    hide DescriptorSlots.Inv, OnPath, SearchOk, Apply, Bounded;
    var s', c := ApplyTree(s, SlotStep(loc, local)).value, s.cells[loc];
    StepKeeps(c, local);
    SlotStepIs(c, local);
    forall id: nat | Claims(s'.cells[loc], id)
      ensures ClaimOk(s', loc, id) && NotElsewhere(s, loc, id)
    {
      assert Claims(c, id) && ClaimOk(s, loc, id);
    }
    assert Evolves(s, s');
    CellChange(s, s', loc);
    SearchesStill(s, s');
  }

  /** A slot only ever stores an id that its reserver announced. */
  lemma SlotStepIs(c: Slot, local: Step)
    requires !local.Reserve? && Apply(c, local).Some?
    ensures var c' := Apply(c, local).value;
            && (c'.id == c.id || (Storing(c, c'.id) && forall id: nat :: !Storing(c', id)))
            && forall id: nat :: Storing(c', id) ==> Storing(c, id)
  {
  }

  /** Only one search changed. */
  lemma OneSearch(s: Tree, s': Tree, t: nat)
    requires TreeInv(s) && t in s'.searches && s' == s.(searches := s.searches[t := s'.searches[t]])
    requires SearchOk(s, s'.searches[t])
    ensures TreeInv(s')
  {
    hide DescriptorSlots.Inv, OnPath, SearchOk, Storing;
    assert Evolves(s, s');
    AllocsChange(s, s');
    forall u | u in s'.searches
      ensures SearchOk(s', s'.searches[u])
    {
      SearchStill(s, s', s'.searches[u]);
    }
  }

  lemma BeginSearchKeeps(s: Tree, t: nat, id: nat, seen: Option<Loc>)
    requires TreeInv(s) && ApplyTree(s, BeginSearch(t, id, seen)).Some?
    ensures TreeInv(ApplyTree(s, BeginSearch(t, id, seen)).value)
  {
    hide DescriptorSlots.Inv, OnPath, Follows, Settled;
    RootFollows(s, id);
    if seen.Some? && id != 0 {
      StoredIsSettled(s, id, seen.value);
    }
    OneSearch(s, ApplyTree(s, BeginSearch(t, id, seen)).value, t);
  }

  lemma StoredIsSettled(s: Tree, id: nat, loc: Loc)
    requires s.m > 0 && IdsOk(s) && id != 0 && loc in s.cells && s.cells[loc].id == id
    ensures Settled(s, id, loc) && OnPath(s.m, id, loc.path)
  {
    hide OnPath;
    assert Claims(s.cells[loc], id);
    assert ClaimOk(s, loc, id);
    forall l | l in s.cells
      ensures !Storing(s.cells[l], id) && (s.cells[l].id == id ==> l == loc)
    {
      assert Storing(s.cells[l], id) || s.cells[l].id == id ==> Claims(s.cells[l], id);
    }
  }

  lemma LookKeeps(s: Tree, t: nat)
    requires TreeInv(s) && ApplyTree(s, Look(t)).Some?
    ensures TreeInv(ApplyTree(s, Look(t)).value)
  {
    hide DescriptorSlots.Inv, IdsOk, Digits, Shift, Storing;
    var s', search := ApplyTree(s, Look(t)).value, s.searches[t];
    assert SearchOk(s, search);
    if search.seen.Some? && search.id != 0 && s.cells[search.seen.value].id == search.id {
      StoredIsSettled(s, search.id, search.seen.value);
    }
    assert SearchOk(s, s'.searches[t]);
    hide SearchOk, ApplyTree;
    OneSearch(s, s', t);
  }

  lemma {:induction false} PrefixIn(s: Tree, p: seq<nat>, d: nat)
    requires TablesOk(s) && p in s.tables && d <= |p|
    ensures p[..d] in s.tables
  {
    if d == |p| {
      assert p[..d] == p;
    } else {
      PrefixIn(s, p[..|p| - 1], d);
      assert p[..|p| - 1][..d] == p[..d];
    }
  }

  lemma DescendSearchKeeps(s: Tree, t: nat)
    requires TreeInv(s) && ApplyTree(s, DescendSearch(t)).Some?
    ensures TreeInv(ApplyTree(s, DescendSearch(t)).value)
  {
    hide DescriptorSlots.Inv, IdsOk, Settled, Digits, Shift, Down;
    var s', search := ApplyTree(s, DescendSearch(t)).value, s.searches[t];
    assert SearchOk(s, search);
    DownFollows(s.m, search.id, search.walk);
    DownPath(s.m, search.walk);
    if search.seen.Some? && search.id != 0 && s.cells[search.seen.value].id == search.id {
      var loc, d := search.seen.value, |search.walk.path| + 1;
      StoredIsSettled(s, search.id, loc);
      DigitsPrefix(s.m, search.id, d, |loc.path|);
      PrefixIn(s, loc.path, d);
    }
    OneSearch(s, s', t);
  }

  // ---- What a search tells ----

  /** A search that ends without a result, for an id that was stored when it began, means that the
      slot has been given to another descriptor since. */
  lemma NotFoundIsGone(s: Tree, t: nat)
    requires TreeInv(s) && t in s.searches && s.searches[t].outcome == NotFound
    requires s.searches[t].seen.Some? && s.searches[t].id != 0
    ensures forall loc :: loc in s.cells ==> s.cells[loc].id != s.searches[t].id
  {
  }

  /** A search that ends with a slot has the slot where the id is, if it is anywhere. */
  lemma FoundIsThere(s: Tree, t: nat, loc: Loc)
    requires TreeInv(s) && t in s.searches && s.searches[t].outcome.Found? && s.searches[t].seen.Some?
    requires s.searches[t].id != 0 && loc in s.cells && s.cells[loc].id == s.searches[t].id
    ensures s.searches[t].outcome.loc == loc
  {
  }

  /** An id is never stored in two slots. */
  lemma OneSlotPerId(s: Tree, loc: Loc, loc': Loc)
    requires TreeInv(s) && loc in s.cells && loc' in s.cells && s.cells[loc].id == s.cells[loc'].id != 0
    ensures loc == loc'
  {
    StoredIsSettled(s, s.cells[loc].id, loc);
  }

  // ---- Runs ----

  ghost predicate TreeRun(n: nat, m: nat, states: seq<Tree>, steps: seq<TreeStep>)
  {
    && n > 0 && m > 0 && |states| == |steps| + 1 && states[0] == EmptyTree(n, m)
    && (forall i :: 0 <= i < |states| ==> states[i].m == m)
    && forall i :: 0 <= i < |steps| ==>
      BoundedTree(states[i], steps[i]) && ApplyTree(states[i], steps[i]) == Some(states[i + 1])
  }

  lemma {:induction false} TreeRunKeeps(n: nat, m: nat, states: seq<Tree>, steps: seq<TreeStep>, i: nat)
    requires TreeRun(n, m, states, steps) && i < |states|
    ensures TreeInv(states[i])
  {
    hide ApplyTree, TablesOk, IdsOk, SearchOk;
    if i == 0 {
      assert TreeInv(EmptyTree(n, m)) by { EmptyTreeOk(n, m); }
    } else {
      var j := i - 1;
      TreeRunKeeps(n, m, states, steps, j);
      assert ApplyTree(states[j], steps[j]) == Some(states[j + 1]);
      TreeStepKeeps(states[j], steps[j]);
    }
  }

  lemma EmptyTreeOk(n: nat, m: nat)
    requires n > 0 && m > 0
    ensures TreeInv(EmptyTree(n, m))
  {
  }

  // ---- Each slot by itself ----

  /** What a step does to slot `loc`, seen from the slot. */
  ghost function Local(s: Tree, step: TreeStep, loc: Loc): seq<Step>
  {
    match step
    case SlotStep(l, local) => if l == loc then [local] else []
    case TryReserve(id) =>
      if id in s.allocs && Here(s.allocs[id]) == loc && Apply(Cell(s, loc), Reserve(id)).Some? then [Reserve(id)]
      else []
    case _ => []
  }

  ghost function Locals(states: seq<Tree>, steps: seq<TreeStep>, loc: Loc, j: nat): seq<Step>
    requires j <= |steps| < |states|
  {
    if j == 0 then []
    else Locals(states, steps, loc, j - 1) + Local(states[j - 1], steps[j - 1], loc)
  }

  /** Whatever happens in the tree, each slot goes through a run of its own, so all that holds of slots holds
      of every slot of the tree. */
  lemma {:induction false} SlotRuns(n: nat, m: nat, states: seq<Tree>, steps: seq<TreeStep>, loc: Loc, j: nat)
      returns (cells: seq<Slot>)
    requires TreeRun(n, m, states, steps) && j < |states|
    ensures DescriptorSlots.Run(cells, Locals(states, steps, loc, j)) && cells[|cells| - 1] == Cell(states[j], loc)
  {
    hide Apply, ApplyTree, Bounded;
    if j == 0 {
      cells := [DescriptorSlots.EMPTY];
    } else {
      var i := j - 1;
      var before := SlotRuns(n, m, states, steps, loc, i);
      assert ApplyTree(states[i], steps[i]) == Some(states[i + 1]) && BoundedTree(states[i], steps[i]);
      LocalStep(states[i], steps[i], loc);
      if Local(states[i], steps[i], loc) == [] {
        cells := before;
      } else {
        cells := before + [Cell(states[j], loc)];
        LongerRun(before, Locals(states, steps, loc, i), Local(states[i], steps[i], loc)[0], Cell(states[j], loc));
      }
    }
  }

  lemma LocalStep(s: Tree, step: TreeStep, loc: Loc)
    requires s.m > 0 && ApplyTree(s, step).Some? && BoundedTree(s, step)
    ensures var local, c, c' := Local(s, step, loc), Cell(s, loc), Cell(ApplyTree(s, step).value, loc);
            || (local == [] && c' == c)
            || (|local| == 1 && Bounded(c, local[0]) && Apply(c, local[0]) == Some(c'))
  {
    hide Apply, Bounded, Down, Here, TryNext;
    match step
    case TryReserve(id) =>
      assert Bounded(Cell(s, loc), Reserve(id)) by { ReserveBounded(Cell(s, loc), id); }
    case SlotStep(l, local) =>
    case _ => assert ApplyTree(s, step).value.cells == s.cells;
  }

  lemma ReserveBounded(c: Slot, id: nat)
    ensures Bounded(c, Reserve(id))
  {
  }

  lemma LongerRun(cells: seq<Slot>, locals: seq<Step>, local: Step, c: Slot)
    requires DescriptorSlots.Run(cells, locals)
    requires Bounded(cells[|cells| - 1], local) && Apply(cells[|cells| - 1], local) == Some(c)
    ensures DescriptorSlots.Run(cells + [c], locals + [local])
  {
    hide Apply, Bounded;
  }

  /** No step from `i` on and before `j` reserves slot `loc`. */
  ghost predicate NotReserved(states: seq<Tree>, steps: seq<TreeStep>, loc: Loc, i: nat, j: nat)
    requires |steps| < |states|
  {
    forall x, id :: i <= x < j && x < |steps| && steps[x] == TryReserve(id) ==>
      Local(states[x], steps[x], loc) != [Reserve(id)]
  }

  /** A step does at most one thing to a slot, and only a successful reservation reserves it. */
  lemma LocalIs(s: Tree, step: TreeStep, loc: Loc)
    requires step.SlotStep? ==> !step.step.Reserve?
    requires step.TryReserve? ==> Local(s, step, loc) != [Reserve(step.id)]
    ensures |Local(s, step, loc)| <= 1 && NoReserve(Local(s, step, loc), 0, |Local(s, step, loc)|)
  {
    hide Apply;
  }

  lemma NoReserveOn(locals: seq<Step>, more: seq<Step>, q: nat)
    requires q <= |locals| && NoReserve(locals, q, |locals|) && NoReserve(more, 0, |more|)
    ensures NoReserve(locals + more, q, |locals + more|)
  {
    forall n | q <= n < |locals + more|
      ensures !(locals + more)[n].Reserve?
    {
      assert n < |locals| ==> (locals + more)[n] == locals[n];
      assert n >= |locals| ==> (locals + more)[n] == more[n - |locals|];
    }
  }

  /** What happened to the slot since step `p`. */
  lemma {:induction false} LocalsSince(states: seq<Tree>, steps: seq<TreeStep>, loc: Loc, p: nat, j: nat)
    requires p < j <= |steps| < |states| && NotReserved(states, steps, loc, p + 1, j)
    requires forall x :: p <= x < j && steps[x].SlotStep? ==> !steps[x].step.Reserve?
    requires steps[p].SlotStep? && steps[p].loc == loc
    ensures var q, locals := |Locals(states, steps, loc, p)|, Locals(states, steps, loc, j);
            q < |locals| && locals[q] == steps[p].step && NoReserve(locals, q + 1, |locals|)
  {
    var x := j - 1;
    assert Locals(states, steps, loc, j) == Locals(states, steps, loc, x) + Local(states[x], steps[x], loc);
    if p == x {
      assert Local(states[x], steps[x], loc) == [steps[p].step];
    } else {
      assert steps[x].TryReserve? ==> Local(states[x], steps[x], loc) != [Reserve(steps[x].id)];
      hide Local, Locals, NoReserve;
      LocalsSince(states, steps, loc, p, x);
      LocalIs(states[x], steps[x], loc);
      NoReserveOn(Locals(states, steps, loc, x), Local(states[x], steps[x], loc), |Locals(states, steps, loc, p)| + 1);
    }
  }

  lemma NotByHand(s: Tree, step: TreeStep)
    requires s.m > 0 && ApplyTree(s, step).Some? && step.SlotStep?
    ensures !step.step.Reserve?
  {
    hide Apply;
  }

  /** The values that a handle finds are those that its slot was committed with, if it was not reserved since. */
  lemma AcquiredReads(n: nat, m: nat, states: seq<Tree>, steps: seq<TreeStep>, p: nat, j: nat, loc: Loc, k: nat)
    requires TreeRun(n, m, states, steps) && p < j < |states| && NotReserved(states, steps, loc, p + 1, j)
    requires steps[p].SlotStep? && steps[p].loc == loc && IsHandle(Cell(states[j], loc), k)
    ensures steps[p].step.FillA? ==> Cell(states[j], loc).slotA == Some(steps[p].step.value)
    ensures steps[p].step.FillB? && Has(Cell(states[j], loc), k, HandleB) ==>
      Cell(states[j], loc).slotB == Some(steps[p].step.value)
  {
    hide Apply, IsHandle, Locals, NotReserved;
    forall x | p <= x < j && steps[x].SlotStep?
      ensures !steps[x].step.Reserve?
    {
      assert ApplyTree(states[x], steps[x]) == Some(states[x + 1]);
      NotByHand(states[x], steps[x]);
    }
    hide ApplyTree, TreeRun;
    var cells := SlotRuns(n, m, states, steps, loc, j);
    LocalsSince(states, steps, loc, p, j);
    CommittedIsRead(cells, Locals(states, steps, loc, j), |Locals(states, steps, loc, p)|, |cells| - 1, k);
  }

  /** The handle that `acquire` returns: it was checked to be for the id after it was counted. As long
      as it is held, its slot has that id and the same value, whatever happens elsewhere. */
  lemma {:induction false} AcquiredKeepsId(n: nat, m: nat, states: seq<Tree>, steps: seq<TreeStep>, i: nat, j: nat,
                                           loc: Loc, k: nat, id: nat)
    requires TreeRun(n, m, states, steps) && i <= j < |states|
    requires forall x :: i <= x <= j ==> loc in states[x].cells && k in states[x].cells[loc].tokens
    requires states[i].cells[loc].id == id
    ensures states[j].cells[loc].id == id
    ensures states[j].cells[loc].slotA.Some? && states[j].cells[loc].slotA == states[i].cells[loc].slotA
  {
    TreeRunKeeps(n, m, states, steps, j);
    assert DescriptorSlots.Inv(states[j].cells[loc]);
    hide DescriptorSlots.Inv, TreeInv;
    HeldIsIdle(states[j].cells[loc], k);
    if i < j {
      var x := j - 1;
      AcquiredKeepsId(n, m, states, steps, i, x, loc, k, id);
      TreeRunKeeps(n, m, states, steps, x);
      assert ApplyTree(states[x], steps[x]) == Some(states[x + 1]);
      CellKept(states[x], steps[x], loc, k);
    }
  }

  lemma CellKept(s: Tree, step: TreeStep, loc: Loc, k: nat)
    requires TreeInv(s) && ApplyTree(s, step).Some? && loc in s.cells && k in s.cells[loc].tokens
    requires loc in ApplyTree(s, step).value.cells && k in ApplyTree(s, step).value.cells[loc].tokens
    ensures ApplyTree(s, step).value.cells[loc].id == s.cells[loc].id
    ensures ApplyTree(s, step).value.cells[loc].slotA == s.cells[loc].slotA
  {
    hide IdsOk, SearchOk, Apply, DescriptorSlots.Inv;
    var c := s.cells[loc];
    HeldIsIdle(c, k);
    match step
    case TryReserve(id) =>
      if Apply(Cell(s, Here(s.allocs[id])), Reserve(id)).Some? {
        ReserveIs(Cell(s, Here(s.allocs[id])), id);
      }
    case SlotStep(l, local) =>
      SlotStepIs(s.cells[l], local);
      if l == loc {
        HeldStays(c, local, k);
      }
    case _ =>
  }

  lemma HeldIsIdle(c: Slot, k: nat)
    requires DescriptorSlots.Inv(c) && k in c.tokens
    ensures c.phase == Idle && c.slotA.Some?
  {
    hide Tokens, With;
    assert c.tokens != map[];
  }

  lemma HeldStays(c: Slot, local: Step, k: nat)
    requires Apply(c, local).Some? && k in c.tokens && c.phase == Idle
    ensures Apply(c, local).value.slotA == c.slotA
  {
  }
  // ---- Walks come to an end ----

  /** The steps can be taken one after the other, and lead to `s'`. */
  ghost predicate TreeLeads(s: Tree, steps: seq<TreeStep>, s': Tree)
    requires s.m > 0
    decreases |steps|
  {
    if steps == [] then s' == s
    else
      && ApplyTree(s, steps[0]).Some? && ApplyTree(s, steps[0]).value.m > 0
      && TreeLeads(ApplyTree(s, steps[0]).value, steps[1..], s')
  }

  lemma TreeLeadsOn(s: Tree, step: TreeStep, steps: seq<TreeStep>, s': Tree)
    requires s.m > 0 && ApplyTree(s, step).Some? && ApplyTree(s, step).value.m > 0
    requires TreeLeads(ApplyTree(s, step).value, steps, s')
    ensures TreeLeads(s, [step] + steps, s')
  {
    hide ApplyTree;
    assert ([step] + steps)[1..] == steps;
  }

  lemma {:induction false} PathBound(paths: set<seq<nat>>) returns (bound: nat)
    ensures forall p :: p in paths ==> |p| <= bound
    decreases |paths|
  {
    if paths == {} {
      bound := 0;
    } else {
      var p :| p in paths;
      var rest := PathBound(paths - {p});
      bound := if |p| > rest then |p| else rest;
    }
  }

  /** Steps of nobody but the thread that looks for a slot for `id`. */
  ghost predicate AllocSteps(steps: seq<TreeStep>, id: nat)
  {
    forall i :: 0 <= i < |steps| ==> steps[i] == TryReserve(id) || steps[i] == DescendAlloc(id)
  }

  /** Steps of nobody but the thread that searches. */
  ghost predicate SearchSteps(steps: seq<TreeStep>, t: nat)
  {
    forall i :: 0 <= i < |steps| ==> steps[i] == Look(t) || steps[i] == DescendSearch(t)
  }

  /** The next step of the thread that looks for a slot for `id`. */
  ghost function AllocNext(s: Tree, id: nat): TreeStep
    requires id in s.allocs
  {
    if s.allocs[id].k < s.n then TryReserve(id) else DescendAlloc(id)
  }

  /** The slot is waiting for its id to be stored, on the path of the id. */
  ghost predicate Placed(s: Tree, id: nat, loc: Loc)
    requires s.m > 0
  {
    loc in s.cells && s.cells[loc].phase == ResetB(id) && OnPath(s.m, id, loc.path) && loc.k < s.n && id !in s.allocs
  }

  /** How far the walk is from a table in which no slot was ever touched. */
  ghost function AllocLeft(s: Tree, id: nat, bound: nat): nat
    requires id in s.allocs
  {
    var w := s.allocs[id];
    if |w.path| <= bound then bound - |w.path| + 2 else if w.k >= s.n then 1 else 0
  }

  lemma {:induction false} AllocEndsWithin(s: Tree, id: nat, bound: nat)
    requires TreeInv(s) && id in s.allocs && forall loc :: loc in s.cells ==> |loc.path| <= bound
    ensures exists steps, s', loc ::
              && TreeLeads(s, steps, s') && AllocSteps(steps, id)
              && TreeInv(s') && s'.m == s.m && Placed(s', id, loc)
    decreases AllocLeft(s, id, bound), s.n - s.allocs[id].k
  {
    hide TreeInv, ApplyTree, OnPath;
    var step := AllocNext(s, id);
    AllocStep(s, id, bound);
    TreeStepKeeps(s, step);
    var s1 := ApplyTree(s, step).value;
    if id !in s1.allocs {
      var loc := Here(s.allocs[id]);
      assert TreeLeads(s1, [], s1);
      TreeLeadsOn(s, step, [], s1);
      assert Placed(s1, id, loc);
    } else {
      AllocEndsWithin(s1, id, bound);
      var steps, s', loc :|
        && TreeLeads(s1, steps, s') && AllocSteps(steps, id)
        && TreeInv(s') && s'.m == s1.m && Placed(s', id, loc);
      TreeLeadsOn(s, step, steps, s');
      assert TreeLeads(s, [step] + steps, s');
    }
  }

  lemma AllocStep(s: Tree, id: nat, bound: nat)
    requires TreeInv(s) && id in s.allocs && forall loc :: loc in s.cells ==> |loc.path| <= bound
    ensures s.m > 0 && ApplyTree(s, AllocNext(s, id)).Some? && BoundedTree(s, AllocNext(s, id))
    ensures var s', w := ApplyTree(s, AllocNext(s, id)).value, s.allocs[id];
            && s'.m == s.m && s'.n == s.n
            && (id !in s'.allocs ==> Placed(s', id, Here(w)))
            && (id in s'.allocs ==>
                  && (forall loc :: loc in s'.cells ==> |loc.path| <= bound)
                  && (|| AllocLeft(s', id, bound) < AllocLeft(s, id, bound)
                      || (AllocLeft(s', id, bound) == AllocLeft(s, id, bound) && w.k < s'.allocs[id].k <= s.n)))
  {
    hide SearchOk, DescriptorSlots.Inv, OnPath;
    assert AllocOk(s, id);
    DownPath(s.m, s.allocs[id]);
  }

  /** Left to itself, an allocation finds a slot on the path of its id. */
  lemma AllocEnds(s: Tree, id: nat)
    requires TreeInv(s) && id in s.allocs
    ensures s.m > 0 && exists steps, s', loc ::
              && TreeLeads(s, steps, s') && AllocSteps(steps, id)
              && TreeInv(s') && s'.m == s.m && Placed(s', id, loc)
  {
    hide TreeInv, ApplyTree, OnPath, TreeLeads;
    SomeArity(s);
    var bound := PathBound(set loc | loc in s.cells :: loc.path);
    AllocEndsWithin(s, id, bound);
  }

  ghost function SearchNext(s: Tree, t: nat): TreeStep
    requires t in s.searches
  {
    if s.searches[t].walk.k < s.n then Look(t) else DescendSearch(t)
  }

  /** Where the search is when it is over. */
  ghost predicate Ended(s: Tree, s': Tree, t: nat)
  {
    && s'.cells == s.cells && t in s.searches && t in s'.searches && s'.searches[t].outcome != Pending
    && s'.searches[t].id == s.searches[t].id && s'.searches[t].seen == s.searches[t].seen
  }

  lemma {:induction false} SearchEndsWithin(s: Tree, t: nat, bound: nat)
    requires TreeInv(s) && t in s.searches && forall p :: p in s.tables ==> |p| <= bound
    ensures s.m > 0 && exists steps, s' ::
              && TreeLeads(s, steps, s') && SearchSteps(steps, t)
              && TreeInv(s') && Ended(s, s', t)
    decreases bound - |s.searches[t].walk.path|, s.n - s.searches[t].walk.k
  {
    hide TreeInv, ApplyTree;
    SomeArity(s);
    if s.searches[t].outcome != Pending {
      assert TreeLeads(s, [], s);
    } else {
      var step := SearchNext(s, t);
      SearchStep(s, t, bound);
      TreeStepKeeps(s, step);
      var s1 := ApplyTree(s, step).value;
      if s1.searches[t].outcome != Pending {
        assert TreeLeads(s1, [], s1);
        TreeLeadsOn(s, step, [], s1);
      } else {
        SearchEndsWithin(s1, t, bound);
        var steps, s' :|
          && TreeLeads(s1, steps, s') && SearchSteps(steps, t)
          && TreeInv(s') && Ended(s1, s', t);
        TreeLeadsOn(s, step, steps, s');
        assert TreeLeads(s, [step] + steps, s');
      }
    }
  }

  lemma SomeArity(s: Tree)
    requires TreeInv(s)
    ensures s.m > 0
  {
  }

  lemma SearchStep(s: Tree, t: nat, bound: nat)
    requires TreeInv(s) && t in s.searches && s.searches[t].outcome == Pending
    requires forall p :: p in s.tables ==> |p| <= bound
    ensures s.m > 0 && ApplyTree(s, SearchNext(s, t)).Some? && BoundedTree(s, SearchNext(s, t))
    ensures var s', w := ApplyTree(s, SearchNext(s, t)).value, s.searches[t].walk;
            && |w.path| <= bound && w.k <= s.n && s'.m == s.m && s'.n == s.n
            && s'.tables == s.tables && s'.cells == s.cells && t in s'.searches
            && s'.searches[t].id == s.searches[t].id && s'.searches[t].seen == s.searches[t].seen
            && var w' := s'.searches[t].walk;
               (s'.searches[t].outcome == Pending ==>
                  (|w.path| < |w'.path| <= bound || (|w.path| == |w'.path| && w.k < w'.k <= s.n)))
  {
    hide DescriptorSlots.Inv, IdsOk, OnPath;
    assert SearchOk(s, s.searches[t]);
    DownPath(s.m, s.searches[t].walk);
  }

  /** The id was in this slot when the search began, and it still is. */
  ghost predicate IsSought(s: Tree, t: nat, loc: Loc)
    requires t in s.searches && loc in s.cells
  {
    s.searches[t].seen == Some(loc) && s.searches[t].id != 0 && s.cells[loc].id == s.searches[t].id
  }

  /** Left to itself, a search ends, and if its id is where it was when the search began, it has found it there. */
  lemma SearchEnds(s: Tree, t: nat)
    requires TreeInv(s) && t in s.searches
    ensures s.m > 0 && exists steps, s' ::
              && TreeLeads(s, steps, s') && SearchSteps(steps, t)
              && Ended(s, s', t)
              && (forall loc :: loc in s.cells && IsSought(s, t, loc) ==> s'.searches[t].outcome == Found(loc))
  {
    hide ApplyTree, TablesOk, IdsOk;
    var bound := PathBound(s.tables);
    SearchEndsWithin(s, t, bound);
    var steps, s' :|
      && TreeLeads(s, steps, s') && SearchSteps(steps, t)
      && TreeInv(s') && Ended(s, s', t);
    SomeArity(s');
    assert SearchOk(s', s'.searches[t]);
    assert TreeLeads(s, steps, s');
  }
  /** Anyone can begin to allocate, with an id that no slot has ever had, anyone can begin to search, and whatever
      can be done with a slot can be done with it in the tree. */
  lemma AnyoneMayBegin(s: Tree, t: nat, id: nat, loc: Loc)
    requires TreeInv(s)
    ensures ApplyTree(s, BeginAlloc).Some?
    ensures var s' := ApplyTree(s, BeginAlloc).value;
            s.nextId !in s.allocs && s'.allocs.Keys == s.allocs.Keys + {s.nextId} && !Claims(Cell(s, loc), s.nextId)
    ensures forall local: Step :: !local.Reserve? && loc in s.cells ==>
              (ApplyTree(s, SlotStep(loc, local)).Some? <==> Apply(s.cells[loc], local).Some?)
    ensures t !in s.searches ==>
      && ApplyTree(s, BeginSearch(t, id, None)).Some?
      && (loc in s.cells && s.cells[loc].id == id ==> ApplyTree(s, BeginSearch(t, id, Some(loc))).Some?)
  {
    hide SearchOk, OnPath, DescriptorSlots.Inv, Apply;
    assert s.nextId in s.allocs ==> AllocOk(s, s.nextId);
    assert loc in s.cells && Claims(s.cells[loc], s.nextId) ==> ClaimOk(s, loc, s.nextId);
  }
}
