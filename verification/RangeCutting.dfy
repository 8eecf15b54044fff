/** How a range of memory is cut into aligned blocks, working down from the largest order. */
module RangeCutting {
  import opened Layout
  import opened Blocks

  ghost predicate Inside(m: Unit, b: Block, start: nat, end: nat)
  {
    start <= b.addr && End(m, b) <= end
  }

  /** Some aligned block of the order just above the lists lies in the range. */
  ghost predicate HoldsWhole(m: Unit, maxOrder: nat, start: nat, end: nat)
  {
    exists p: Block :: p.order == maxOrder && Aligned(m, p) && Inside(m, p, start, end)
  }

  /** The address is in an aligned chunk of twice the minimum size that lies in the range. */
  ghost predicate Accepted(m: Unit, start: nat, end: nat, x: nat)
  {
    Inside(m, Around(m, 1, x), start, end)
  }

  /** Whole blocks in `[from, end)` that are as large as `[start, end)` permits, and that hold every
      address that can be accepted. */
  ghost predicate PiecesFrom(m: Unit, maxOrder: nat, start: nat, from: nat, end: nat, added: set<Block>)
  {
    && Disjoint(m, added)
    && (forall b :: b in added ==> PieceIn(m, maxOrder, start, from, end, b))
    && (forall x: nat :: Covered(m, added, x) <==> Accepted(m, from, end, x))
  }

  ghost predicate PieceIn(m: Unit, maxOrder: nat, start: nat, from: nat, end: nat, b: Block)
  {
    && 1 <= b.order < maxOrder && Inside(m, b, from, end)
    && !Inside(m, Around(m, b.order + 1, b.addr), start, end)
  }

  /** What a range is cut into. */
  ghost predicate Pieces(m: Unit, maxOrder: nat, start: nat, end: nat, added: set<Block>)
  {
    PiecesFrom(m, maxOrder, start, start, end, added)
  }

  /** The orders above `done` are dealt with: `[limit, end)` is cut up, and what is left before it is
      part of a block that does not fit. */
  ghost predicate CutDown(m: Unit, maxOrder: nat, start: nat, limit: nat, end: nat, done: nat, added: set<Block>)
  {
    && PiecesFrom(m, maxOrder, start, limit, end, added)
    && limit <= end && (limit < end ==> start < limit && limit % Size(m, done + 1) == 0)
    && (done < maxOrder ==>
          && limit <= End(m, Around(m, done + 1, start))
          && !Inside(m, Around(m, done + 1, start), start, end)
          && !HoldsWhole(m, maxOrder, start, end))
    && (done == maxOrder ==> limit == end)
  }

  lemma CutStart(m: Unit, maxOrder: nat, start: nat, end: nat)
    ensures CutDown(m, maxOrder, start, end, end, maxOrder, {})
  {
  }

  /** A block does not straddle a boundary of its order or a larger one. */
  lemma NoStraddle(m: Unit, b: Block, order: nat, y: nat)
    requires Aligned(m, b) && b.order <= order && y % Size(m, order) == 0
    ensures End(m, b) <= y || y <= b.addr
  {
    hide Size;
    NestedOrApart(m, b, Block(order, y));
  }

  lemma BoundaryBelow(m: Unit, order: nat, y: nat)
    requires y % Size(m, order + 1) == 0
    ensures y % Size(m, order) == 0
  {
    HalvesAligned(m, Block(order + 1, y));
  }

  lemma {:induction false} ChunkBoundary(m: Unit, order: nat, y: nat)
    requires order >= 1 && y % Size(m, order) == 0
    ensures y % Size(m, 1) == 0
  {
    hide Size;
    if order > 1 {
      BoundaryBelow(m, order - 1, y);
      ChunkBoundary(m, order - 1, y);
    }
  }

  lemma BlockEndAligned(m: Unit, b: Block)
    requires Aligned(m, b)
    ensures End(m, b) % Size(m, b.order) == 0
  {
    hide Size;
    AlignedPlus(b.addr, Size(m, b.order), Size(m, b.order));
  }

  lemma AcceptedSplit(m: Unit, start: nat, mid: nat, end: nat, x: nat)
    requires start <= mid <= end && mid % Size(m, 1) == 0
    ensures Accepted(m, start, end, x) <==> Accepted(m, start, mid, x) || Accepted(m, mid, end, x)
  {
    hide Size;
    AroundHolds(m, 1, x);
    AroundOrder(m, 1, x);
    NoStraddle(m, Around(m, 1, x), 1, mid);
  }

  /** The same, with nothing left behind the block of the next order around `start`. */
  ghost predicate Truncated(m: Unit, maxOrder: nat, start: nat, limit: nat, end: nat, order: nat, added: set<Block>)
  {
    var b := Around(m, order, start);
    && PiecesFrom(m, maxOrder, start, limit, end, added)
    && limit <= end && (limit < end ==> start < limit && limit % Size(m, order) == 0)
    && limit <= End(m, b) && (limit < End(m, b) ==> limit == end)
    && (order < maxOrder ==>
          !Inside(m, Around(m, order + 1, start), start, end) && !HoldsWhole(m, maxOrder, start, end))
    && (order == maxOrder ==> !HoldsWhole(m, maxOrder, End(m, b), end))
  }

  lemma NoRest(m: Unit, maxOrder: nat, start: nat, limit: nat, end: nat, order: nat, added: set<Block>)
    requires order <= maxOrder && CutDown(m, maxOrder, start, limit, end, order, added)
    requires limit <= End(m, Around(m, order, start))
    ensures Truncated(m, maxOrder, start, limit, end, order, added)
  {
    hide Size, PiecesFrom;
    var b := Around(m, order, start);
    AroundHolds(m, order, start);
    AroundOrder(m, order, start);
    if limit < end {
      NoStraddle(m, b, order + 1, limit);
      BoundaryBelow(m, order, limit);
    }
    hide Around, Aligned;
  }

  /** Cutting up the part behind the block around `start` first. */
  lemma Rest(m: Unit, maxOrder: nat, start: nat, limit: nat, end: nat, order: nat, added: set<Block>, rest: set<Block>)
    requires 1 <= order <= maxOrder && CutDown(m, maxOrder, start, limit, end, order, added)
    requires var b := Around(m, order, start);
             && End(m, b) < limit && !HoldsWhole(m, maxOrder, End(m, b), limit)
             && Pieces(m, maxOrder, End(m, b), limit, rest)
    ensures added !! rest && Truncated(m, maxOrder, start, End(m, Around(m, order, start)), end, order, added + rest)
  {
    hide Size, Covered, Accepted, PiecesFrom, HoldsWhole, Around;
    var b := Around(m, order, start);
    AroundHolds(m, order, start);
    AroundOrder(m, order, start);
    BlockEndAligned(m, b);
    RestPieces(m, maxOrder, start, limit, end, order, added, rest);
  }

  lemma RestPieces(m: Unit, maxOrder: nat, start: nat, limit: nat, end: nat, order: nat, added: set<Block>,
                   rest: set<Block>)
    requires 1 <= order <= maxOrder && CutDown(m, maxOrder, start, limit, end, order, added)
    requires var b := Around(m, order, start); End(m, b) < limit && Pieces(m, maxOrder, End(m, b), limit, rest)
    ensures added !! rest && PiecesFrom(m, maxOrder, start, End(m, Around(m, order, start)), end, added + rest)
  {
    hide Size, Covered, Accepted, HoldsWhole, Around, Aligned, PieceIn;
    var from := End(m, Around(m, order, start));
    forall b, c | b in added && c in rest
      ensures Apart(m, b, c) && Apart(m, c, b) && b != c
    {
      InsideApart(m, maxOrder, start, from, limit, end, c, b);
    }
    forall b | b in added + rest
      ensures PieceIn(m, maxOrder, start, from, end, b)
    {
      if b in added {
        assert PieceIn(m, maxOrder, start, limit, end, b);
        PieceFromEarlier(m, maxOrder, start, from, limit, end, b);
      } else {
        RestMaximal(m, maxOrder, start, limit, end, order, added, b);
      }
    }
    forall x: nat
      ensures Covered(m, added + rest, x) <==> Accepted(m, from, end, x)
    {
      CoveredUnion(m, added, rest, x);
      if limit < end {
        ChunkBoundary(m, order + 1, limit);
        AcceptedSplit(m, from, limit, end, x);
      } else {
        AcceptedEmpty(m, end, x);
      }
    }
  }

  lemma InsideApart(m: Unit, maxOrder: nat, start: nat, from: nat, limit: nat, end: nat, b: Block, c: Block)
    requires PieceIn(m, maxOrder, from, from, limit, b) && PieceIn(m, maxOrder, start, limit, end, c)
    ensures Apart(m, b, c) && Apart(m, c, b) && b != c
  {
  }

  lemma PieceFromEarlier(m: Unit, maxOrder: nat, start: nat, from: nat, limit: nat, end: nat, b: Block)
    requires from <= limit && PieceIn(m, maxOrder, start, limit, end, b)
    ensures PieceIn(m, maxOrder, start, from, end, b)
  {
  }

  lemma CoveredUnion(m: Unit, s: set<Block>, u: set<Block>, x: nat)
    ensures Covered(m, s + u, x) <==> Covered(m, s, x) || Covered(m, u, x)
  {
  }

  lemma AcceptedEmpty(m: Unit, end: nat, x: nat)
    ensures !Accepted(m, end, end, x)
  {
  }

  /** A block behind the one around `start` cannot grow beyond its own part either. */
  lemma RestMaximal(m: Unit, maxOrder: nat, start: nat, limit: nat, end: nat, order: nat, added: set<Block>, c: Block)
    requires 1 <= order <= maxOrder && CutDown(m, maxOrder, start, limit, end, order, added)
    requires Aligned(m, c)
    requires PieceIn(m, maxOrder, End(m, Around(m, order, start)), End(m, Around(m, order, start)), limit, c)
    ensures PieceIn(m, maxOrder, start, End(m, Around(m, order, start)), end, c)
  {
    hide Size, PiecesFrom, HoldsWhole;
    var b, p := Around(m, order, start), Around(m, c.order + 1, c.addr);
    AroundHolds(m, order, start);
    AroundHolds(m, c.order + 1, c.addr);
    if p.order <= order {
      NestedOrApart(m, p, b);
      if limit < end {
        NoStraddle(m, p, order + 1, limit);
      }
    } else {
      AroundHolds(m, order + 1, start);
      NestedOrApart(m, Around(m, order + 1, start), p);
    }
  }

  /** The block around `start` does not fit either. */
  lemma Skip(m: Unit, maxOrder: nat, start: nat, limit: nat, end: nat, order: nat, added: set<Block>)
    requires 1 <= order <= maxOrder && Truncated(m, maxOrder, start, limit, end, order, added)
    requires Around(m, order, start).addr < start || limit < End(m, Around(m, order, start))
    ensures CutDown(m, maxOrder, start, limit, end, order - 1, added)
  {
    hide Size, PiecesFrom;
    if order == maxOrder {
      NoWholeYet(m, start, end, order);
    }
  }

  lemma NoWholeYet(m: Unit, start: nat, end: nat, order: nat)
    requires !Inside(m, Around(m, order, start), start, end)
    requires !HoldsWhole(m, order, End(m, Around(m, order, start)), end)
    ensures !HoldsWhole(m, order, start, end)
  {
    hide Size;
    var b := Around(m, order, start);
    AroundHolds(m, order, start);
    AroundOrder(m, order, start);
    hide Around;
    forall p: Block | p.order == order && Aligned(m, p)
      ensures !Inside(m, p, start, end)
    {
      NestedOrApart(m, p, b);
    }
  }

  lemma FitsPieces(m: Unit, maxOrder: nat, start: nat, end: nat, b: Block, added: set<Block>)
    requires Aligned(m, b) && b.addr == start && 1 <= b.order < maxOrder && End(m, b) <= end
    requires PiecesFrom(m, maxOrder, start, End(m, b), end, added)
    requires !Inside(m, Around(m, b.order + 1, start), start, end)
    ensures b !in added && Pieces(m, maxOrder, start, end, added + {b})
  {
    hide Size, Covered, Accepted, Aligned, Around;
    forall c | c in added
      ensures Apart(m, b, c) && Apart(m, c, b) && c != b && PieceIn(m, maxOrder, start, start, end, c)
    {
      assert PieceIn(m, maxOrder, start, End(m, b), end, c);
    }
    BlockEndAligned(m, b);
    ChunkBoundary(m, b.order, End(m, b));
    forall x: nat
      ensures Covered(m, added + {b}, x) <==> Accepted(m, start, end, x)
    {
      CoveredUnion(m, added, {b}, x);
      CoveredOne(m, b, x);
      AcceptedSplit(m, start, End(m, b), end, x);
      AcceptedIn(m, b, x);
    }
  }

  lemma CoveredOne(m: Unit, b: Block, x: nat)
    ensures Covered(m, {b}, x) <==> Holds(m, b, x)
  {
  }

  /** A block accepts exactly its own addresses. */
  lemma AcceptedIn(m: Unit, b: Block, x: nat)
    requires Aligned(m, b) && b.order >= 1
    ensures Accepted(m, b.addr, End(m, b), x) <==> Holds(m, b, x)
  {
    hide Size;
    AroundHolds(m, 1, x);
    NestedOrApart(m, Around(m, 1, x), b);
  }

  lemma IsWhole(m: Unit, p: Block, start: nat, end: nat)
    requires Aligned(m, p) && Inside(m, p, start, end)
    ensures HoldsWhole(m, p.order, start, end)
  {
  }

  lemma WholeInPart(m: Unit, maxOrder: nat, start: nat, end: nat, from: nat, limit: nat)
    requires HoldsWhole(m, maxOrder, from, limit) && start <= from && limit <= end
    ensures HoldsWhole(m, maxOrder, start, end)
  {
  }

  /** The block around `start` is exactly what is left. */
  lemma Fits(m: Unit, maxOrder: nat, start: nat, limit: nat, end: nat, order: nat, added: set<Block>)
    requires 1 <= order <= maxOrder && Truncated(m, maxOrder, start, limit, end, order, added)
    requires var b := Around(m, order, start); b.addr == start && End(m, b) <= limit
    ensures start < limit <= end
    ensures order == maxOrder <==> HoldsWhole(m, maxOrder, start, end)
    ensures order < maxOrder ==>
      Block(order, start) !in added && Pieces(m, maxOrder, start, end, added + {Block(order, start)})
  {
    hide Size, PiecesFrom, HoldsWhole, Aligned, Around;
    var b := Around(m, order, start);
    AroundHolds(m, order, start);
    AroundOrder(m, order, start);
    if order == maxOrder {
      IsWhole(m, b, start, end);
    } else {
      FitsPieces(m, maxOrder, start, end, b, added);
    }
  }

  /** Nothing is left that could be accepted. */
  lemma Done(m: Unit, maxOrder: nat, start: nat, limit: nat, end: nat, added: set<Block>)
    requires maxOrder >= 1 && CutDown(m, maxOrder, start, limit, end, 0, added)
    ensures !HoldsWhole(m, maxOrder, start, end) && Pieces(m, maxOrder, start, end, added)
  {
    hide Size, Covered, HoldsWhole, Aligned, Disjoint;
    forall b | b in added
      ensures PieceIn(m, maxOrder, start, start, end, b)
    {
      assert PieceIn(m, maxOrder, start, limit, end, b);
    }
    forall x: nat
      ensures Accepted(m, limit, end, x) <==> Accepted(m, start, end, x)
    {
      AroundHolds(m, 1, x);
      AroundHolds(m, 1, start);
      NestedOrApart(m, Around(m, 1, x), Around(m, 1, start));
    }
  }

  /** The pieces of one range contain no two buddies. */
  lemma PiecesCoalesced(m: Unit, maxOrder: nat, start: nat, end: nat, added: set<Block>)
    requires Pieces(m, maxOrder, start, end, added)
    ensures Coalesced(m, added)
  {
    hide Size, Covered, Accepted, Aligned, Around, Apart;
    forall b, c | b in added && c in added
      ensures !AreBuddies(m, b, c)
    {
      assert PieceIn(m, maxOrder, start, start, end, b) && PieceIn(m, maxOrder, start, start, end, c);
      if AreBuddies(m, b, c) {
        BuddiesAreHalves(m, b, c);
        HalvesEnd(m, Around(m, b.order + 1, b.addr));
        AroundOrder(m, b.order + 1, b.addr);
      }
    }
  }

  lemma HalvesEnd(m: Unit, p: Block)
    requires p.order > 0
    ensures Low(m, p).addr == p.addr && End(m, High(m, p)) == End(m, p)
  {
  }

  lemma BlockAround(m: Unit, split: nat, start: nat)
    ensures var b := Around(m, split + 1, start);
            && b.addr <= start < End(m, b)
            && Buddies(m, split, start).0 == b.addr && Buddies(m, split, start).1 + Size(m, split) == End(m, b)
  {
  }

  lemma BeforeLimit(m: Unit, maxOrder: nat, start: nat, limit: nat, end: nat, done: nat, added: set<Block>)
    requires CutDown(m, maxOrder, start, limit, end, done, added)
    ensures limit <= end && forall b :: b in added ==> limit <= b.addr
  {
  }
}
