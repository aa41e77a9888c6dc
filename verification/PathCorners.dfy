/** Where a cheapest walk goes diagonally: a diagonal step costs 25 and two straight ones 20, so only where neither
    corner beside it can be entered free of extra cost (font/map.cpp, `getPathMatching`). */
module PathCorners {
  import opened Arithmetic
  import opened AStarNodes
  import opened PathPrice
  import opened PathQuery

  /** `c` cannot be entered, or only at an extra cost. */
  predicate Costly(q: Query, c: Pos) {
    CanEnter(q, c) ==> q.tiles[c].hasCreatures || q.tiles[c].harmfulField
  }

  /** A step from `a` to `b` on both axes, not across a seam. */
  predicate IsDiagonal(a: Pos, b: Pos) { a.x != b.x && a.y != b.y && Abs(a.x - b.x) <= 1 && Abs(a.y - b.y) <= 1 }

  predicate DiagonalAt(w: seq<Pos>, j: nat) { 0 < j < |w| && IsDiagonal(w[j - 1], w[j]) }

  ghost predicate CornersCostly(q: Query, w: seq<Pos>) {
    forall j: nat {:trigger DiagonalAt(w, j)} :: DiagonalAt(w, j) ==>
      Costly(q, Pos(w[j].x, w[j - 1].y)) && Costly(q, Pos(w[j - 1].x, w[j].y))
  }

  /** Replacing one step of a walk by two by way of `c`. */
  lemma {:induction false} Detour(q: Query, w: seq<Pos>, j: nat, c: Pos)
    requires IsWalk(q, w) && 0 < j < |w| && Step(q, w[j - 1], c) && Step(q, c, w[j])
    ensures var v := w[..j] + [c] + w[j..];
      && WalkTo(q, v, w[|w| - 1])
      && Cost(q.tiles, v) == Cost(q.tiles, w) - StepCost(q.tiles, w[j - 1], w[j]) + StepCost(q.tiles, w[j - 1], c) + StepCost(q.tiles, c, w[j])
  {
    hide Step, StepCost;
    var p := w[|w| - 1];
    var u := w[..|w| - 1];
    var v := w[..j] + [c] + w[j..];
    if j == |w| - 1 {
      ExtendWalk(q, u, c);
      ExtendWalk(q, u + [c], p);
      assert v == u + [c] + [p];
    } else {
      Detour(q, u, j, c);
      var v' := u[..j] + [c] + u[j..];
      assert v == v' + [p];
      ExtendWalk(q, v', p);
    }
  }

  lemma {:induction false} StraightStep(q: Query, a: Pos, b: Pos)
    requires IsPos(a) && IsPos(b) && Abs(a.x - b.x) + Abs(a.y - b.y) == 1 && CanEnter(q, b)
    ensures Step(q, a, b) && MapWalkCost(a, b) == 10
  {
    hide CanEnter;
    var i := DirectionOf(b.x - a.x, b.y - a.y);
    assert i < DirCount(q) && Neighbour(a, i) == b;
  }

  /** The two ways around, where a corner is free. */
  lemma {:induction false} FreeCorner(q: Query, a: Pos, c: Pos, b: Pos)
    requires IsPos(a) && IsPos(b) && IsDiagonal(a, b) && (c == Pos(b.x, a.y) || c == Pos(a.x, b.y))
    requires CanEnter(q, b) && !Costly(q, c)
    ensures Step(q, a, c) && Step(q, c, b)
    ensures StepCost(q.tiles, a, c) + StepCost(q.tiles, c, b) < StepCost(q.tiles, a, b)
  {
    StraightStep(q, a, c);
    StraightStep(q, c, b);
    hide Step, InSearchRange;
  }

  lemma {:induction false} WalkInside(q: Query, w: seq<Pos>, j: nat)
    requires IsPos(q.start) && IsWalk(q, w) && j < |w|
    ensures IsPos(w[j]) && (j > 0 ==> IsPos(w[j - 1]) && CanEnter(q, w[j]))
  {
    hide CanEnter;
    if j < |w| - 1 {
      WalkInside(q, w[..|w| - 1], j);
    } else if j > 0 {
      WalkInside(q, w[..|w| - 1], j - 1);
    }
  }

  lemma {:induction false} CheapestCorner(q: Query, w: seq<Pos>, j: nat, c: Pos)
    requires IsPos(q.start) && IsWalk(q, w) && NoCheaper(q, w[|w| - 1], Cost(q.tiles, w)) && DiagonalAt(w, j)
    requires c == Pos(w[j].x, w[j - 1].y) || c == Pos(w[j - 1].x, w[j].y)
    ensures Costly(q, c)
  {
    hide IsWalk, Cost, StepCost, Costly, CanEnter, Step;
    if !Costly(q, c) {
      WalkInside(q, w, j);
      FreeCorner(q, w[j - 1], c, w[j]);
      Detour(q, w, j, c);
    }
  }

  /** While no walk is cheaper, no diagonal step passes a free corner. */
  lemma {:induction false} CheapestCorners(q: Query, w: seq<Pos>)
    requires IsPos(q.start) && IsWalk(q, w) && NoCheaper(q, w[|w| - 1], Cost(q.tiles, w))
    ensures CornersCostly(q, w)
  {
    hide IsWalk, Cost, Costly, NoCheaper;
    forall j: nat {:trigger DiagonalAt(w, j)} | DiagonalAt(w, j)
      ensures Costly(q, Pos(w[j].x, w[j - 1].y)) && Costly(q, Pos(w[j - 1].x, w[j].y))
    {
      CheapestCorner(q, w, j, Pos(w[j].x, w[j - 1].y));
      CheapestCorner(q, w, j, Pos(w[j - 1].x, w[j].y));
    }
  }
}
