/** The uniform-cost search `Map::getPathMatching` (font/map.cpp). */
module PathMatching {
  import opened Arithmetic
  import opened AStarNodes
  import opened PathCorners
  import opened PathPrice
  import opened PathQuery

  // ----- the state of a search, as the nodes in use and their open flags

  ghost predicate NodeOk(q: Query, ns: seq<Node>, op: seq<bool>, i: nat)
    requires |ns| == |op| && i < |ns|
  {
    var n := ns[i];
    && IsPos(n.At()) && n.f >= 0
    && if i == 0 then n.At() == q.start && n.f == 0 && n.parent == NO_NODE
       else
         && 0 <= n.parent < |ns| && !op[n.parent]
         && Step(q, ns[n.parent].At(), n.At())
         && n.f == ns[n.parent].f + StepCost(q.tiles, ns[n.parent].At(), n.At())
  }

  /** Every node hangs from a closed one, and no position occurs twice. */
  ghost predicate Tree(q: Query, ns: seq<Node>, op: seq<bool>) {
    && 0 < |ns| == |op| <= MAX_NODES
    && (forall i: nat :: i < |ns| ==> NodeOk(q, ns, op, i))
    && (forall i, j :: 0 <= i < j < |ns| ==> ns[i].At() != ns[j].At())
  }

  /** Closed nodes cost at most `bound`, open nodes at least that. */
  ghost predicate Layered(ns: seq<Node>, op: seq<bool>, bound: int)
    requires |ns| == |op|
  {
    forall i :: 0 <= i < |ns| ==> if op[i] then bound <= ns[i].f else ns[i].f <= bound
  }

  /** Costs are bounded by the number of closed nodes. */
  ghost predicate Cheap(ns: seq<Node>, op: seq<bool>)
    requires |ns| == |op|
  {
    var c := CountClosed(op);
    forall i :: 0 <= i < |ns| ==> ns[i].f <= if op[i] then 85 * c else 85 * (c - 1)
  }

  ghost predicate Reached(ns: seq<Node>, p: Pos, c: int) {
    exists i :: 0 <= i < |ns| && ns[i].At() == p && ns[i].f <= c
  }

  /** Direction `d` of node `i` has been looked at. */
  ghost predicate Relaxed(q: Query, ns: seq<Node>, i: nat, d: nat)
    requires i < |ns| && d < 8
  {
    var p := Neighbour(ns[i].At(), d);
    CanEnter(q, p) ==> Reached(ns, p, ns[i].f + StepCost(q.tiles, ns[i].At(), p))
  }

  /** Every closed node is relaxed in all directions, node `n` in the first `upto` only. */
  ghost predicate Closure(q: Query, ns: seq<Node>, op: seq<bool>, n: int, upto: nat)
    requires |ns| == |op|
  {
    forall i: nat, d: nat :: i < |ns| && d < DirCount(q) && !op[i] && (i == n ==> d < upto) ==> Relaxed(q, ns, i, d)
  }

  /** Between two pops. `bound` is the cost of the last popped node, `complete` that the pool
      never ran out. */
  ghost predicate Searching(q: Query, ns: seq<Node>, op: seq<bool>, bound: int, complete: bool) {
    && Tree(q, ns, op) && Layered(ns, op, bound) && Cheap(ns, op)
    && (complete ==> Closure(q, ns, op, NO_NODE, 0))
  }

  /** While node `n` is expanded: `op` already counts it as closed. */
  ghost predicate Expanding(q: Query, ns: seq<Node>, op: seq<bool>, n: nat, upto: nat, complete: bool) {
    && Tree(q, ns, op) && n < |ns| && !op[n] && Layered(ns, op, ns[n].f) && Cheap(ns, op)
    && (complete ==> Closure(q, ns, op, n, upto))
  }

  /** Later states keep every closed node. */
  ghost predicate KeepsClosed(ns: seq<Node>, op: seq<bool>, ns': seq<Node>, op': seq<bool>)
    requires |ns| == |op|
  {
    && |ns| <= |ns'| == |op'|
    && CountClosed(op') == CountClosed(op)
    && (forall i :: 0 <= i < |ns| ==> op'[i] == op[i] && (!op[i] ==> ns'[i] == ns[i]))
    && (forall i :: |ns| <= i < |ns'| ==> op'[i])
  }

  // ----- the two ways a node list changes

  lemma {:induction false} ReachedSame(ns: seq<Node>, ns': seq<Node>, p: Pos, c: int)
    requires |ns| <= |ns'| && Reached(ns, p, c)
    requires forall i :: 0 <= i < |ns| ==> ns'[i].At() == ns[i].At() && ns'[i].f <= ns[i].f
    ensures Reached(ns', p, c)
  {
    var i :| 0 <= i < |ns| && ns[i].At() == p && ns[i].f <= c;
    assert ns'[i].At() == p && ns'[i].f <= c;
  }

  /** Adding a node, or making an open one cheaper, keeps what is relaxed and adds direction `d`. */
  lemma {:induction false} ClosureGrows(q: Query, ns: seq<Node>, op: seq<bool>, n: nat, d: nat, ns': seq<Node>, op': seq<bool>)
    requires |ns| == |op| && n < |ns| && !op[n] && d < DirCount(q)
    requires Closure(q, ns, op, n, d) && KeepsClosed(ns, op, ns', op')
    requires forall i :: 0 <= i < |ns| ==> ns'[i].At() == ns[i].At() && ns'[i].f <= ns[i].f
    requires Relaxed(q, ns', n, d)
    ensures Closure(q, ns', op', n, d + 1)
  {
    forall i: nat, e: nat | i < |ns'| && e < DirCount(q) && !op'[i] && (i == n ==> e < d + 1)
      ensures Relaxed(q, ns', i, e)
    {
      assert i < |ns| && !op[i] && ns'[i] == ns[i];
      if i != n || e != d {
        assert Relaxed(q, ns, i, e);
        var p := Neighbour(ns[i].At(), e);
        if CanEnter(q, p) {
          ReachedSame(ns, ns', p, ns[i].f + StepCost(q.tiles, ns[i].At(), p));
        }
      }
    }
  }

  ghost predicate RelaxNew(q: Query, ns: seq<Node>, op: seq<bool>, n: nat, p: Pos, k: nat, m: Node)
    requires |ns| == |op| && n < |ns|
  {
    && k <= |ns| && k != n && m.At() == p && m.parent == n
    && m.f == ns[n].f + StepCost(q.tiles, ns[n].At(), p)
    && (if k == |ns| then k < MAX_NODES && (forall i :: 0 <= i < |ns| ==> ns[i].At() != p)
        else ns[k].At() == p && m.f < ns[k].f)
  }

  ghost predicate Relaxing(q: Query, ns: seq<Node>, op: seq<bool>, n: nat, d: nat, k: nat, m: Node) {
    && Tree(q, ns, op) && n < |ns| && !op[n] && Layered(ns, op, ns[n].f) && Cheap(ns, op) && d < DirCount(q)
    && CanEnter(q, Neighbour(ns[n].At(), d))
    && RelaxNew(q, ns, op, n, Neighbour(ns[n].At(), d), k, m)
  }

  lemma {:induction false} RelaxKeepsClosed(q: Query, ns: seq<Node>, op: seq<bool>, n: nat, d: nat, k: nat, m: Node)
    requires Relaxing(q, ns, op, n, d, k, m)
    ensures k < |ns| ==> op[k] && k != 0
    ensures KeepsClosed(ns, op, Put(ns, k, m), Put(op, k, true))
  {
    assert NodeOk(q, ns, op, n);
    assert NodeOk(q, ns, op, 0);
    CountClosedSame(op, Put(op, k, true));
  }

  lemma {:induction false} RelaxKeepsTree(q: Query, ns: seq<Node>, op: seq<bool>, n: nat, d: nat, k: nat, m: Node)
    requires Relaxing(q, ns, op, n, d, k, m)
    ensures Tree(q, Put(ns, k, m), Put(op, k, true))
  {
    RelaxKeepsClosed(q, ns, op, n, d, k, m);
    var ns', op' := Put(ns, k, m), Put(op, k, true);
    forall i: nat | i < |ns'|
      ensures NodeOk(q, ns', op', i)
    {
      if i == k {
        assert NodeOk(q, ns, op, n);
        assert Step(q, ns[n].At(), m.At());
      } else {
        assert NodeOk(q, ns, op, i);
      }
    }
  }

  lemma {:induction false} RelaxKeepsCosts(q: Query, ns: seq<Node>, op: seq<bool>, n: nat, d: nat, k: nat, m: Node)
    requires Relaxing(q, ns, op, n, d, k, m)
    ensures var ns', op' := Put(ns, k, m), Put(op, k, true);
      |ns'| == |op'| && ns'[n] == ns[n] && Layered(ns', op', ns[n].f) && Cheap(ns', op')
  {
    RelaxKeepsClosed(q, ns, op, n, d, k, m);
  }

  lemma {:induction false} RelaxKeeps(q: Query, ns: seq<Node>, op: seq<bool>, n: nat, d: nat, complete: bool, k: nat, m: Node)
    requires Relaxing(q, ns, op, n, d, k, m) && Expanding(q, ns, op, n, d, complete)
    ensures KeepsClosed(ns, op, Put(ns, k, m), Put(op, k, true))
    ensures Expanding(q, Put(ns, k, m), Put(op, k, true), n, d + 1, complete)
  {
    var ns', op' := Put(ns, k, m), Put(op, k, true);
    RelaxKeepsClosed(q, ns, op, n, d, k, m);
    RelaxKeepsTree(q, ns, op, n, d, k, m);
    RelaxKeepsCosts(q, ns, op, n, d, k, m);
    if complete {
      assert ns'[k].At() == m.At() && ns'[k].f <= m.f;
      assert Reached(ns', m.At(), m.f);
      ClosureGrows(q, ns, op, n, d, ns', op');
    }
  }

  /** A neighbour that is already listed at no higher cost needs no change. */
  lemma {:induction false} RelaxKnown(q: Query, ns: seq<Node>, op: seq<bool>, n: nat, d: nat, complete: bool, k: nat)
    requires Expanding(q, ns, op, n, d, complete) && d < DirCount(q) && k < |ns|
    requires var p := Neighbour(ns[n].At(), d);
      ns[k].At() == p && ns[k].f <= ns[n].f + StepCost(q.tiles, ns[n].At(), p)
    ensures Expanding(q, ns, op, n, d + 1, complete)
  {
    var p := Neighbour(ns[n].At(), d);
    assert Reached(ns, p, ns[n].f + StepCost(q.tiles, ns[n].At(), p));
    if complete { ClosureGrows(q, ns, op, n, d, ns, op); }
  }

  // ----- taking the best node

  /** No cost ever reaches the sentinel, so `getBestNode` misses no open node. */
  lemma {:induction false} SentinelNeverHides(ns: seq<Node>, op: seq<bool>, k: int)
    requires |ns| == |op| <= MAX_NODES && Cheap(ns, op) && IsBest(ns, op, k)
    ensures k == NO_NODE ==> forall i :: 0 <= i < |ns| ==> !op[i]
    ensures k != NO_NODE ==> ns[k].f <= 85 * 511
  {
  }

  lemma {:induction false} PopKeeps(q: Query, ns: seq<Node>, op: seq<bool>, bound: int, complete: bool, n: int)
    requires Searching(q, ns, op, bound, complete) && IsBest(ns, op, n) && n != NO_NODE
    ensures Expanding(q, ns, op[n := false], n, 0, complete)
    ensures CountClosed(op[n := false]) == CountClosed(op) + 1
    ensures bound <= ns[n].f
  {
    var op' := op[n := false];
    CountClosedOne(op, n);
    forall i: nat | i < |ns|
      ensures NodeOk(q, ns, op', i)
    {
      assert NodeOk(q, ns, op, i);
    }
    if complete {
      forall i: nat, d: nat | i < |ns| && d < DirCount(q) && !op'[i] && (i == n ==> d < 0)
        ensures Relaxed(q, ns, i, d)
      {
        assert !op[i];
      }
    }
  }

  lemma {:induction false} ExpandedKeeps(q: Query, ns: seq<Node>, op: seq<bool>, n: nat, complete: bool)
    requires Expanding(q, ns, op, n, if complete then DirCount(q) else 0, complete)
    ensures Searching(q, ns, op, ns[n].f, complete)
  {
  }

  /** Any walk ends at a listed node that is no dearer, or is at least as dear as every open node. */
  lemma {:induction false} CheapestSoFar(q: Query, ns: seq<Node>, op: seq<bool>, b: int, w: seq<Pos>)
    requires Tree(q, ns, op) && Closure(q, ns, op, NO_NODE, 0) && IsWalk(q, w)
    requires forall i :: 0 <= i < |ns| && op[i] ==> b <= ns[i].f
    ensures Reached(ns, w[|w| - 1], Cost(q.tiles, w)) || b <= Cost(q.tiles, w)
  {
    if |w| == 1 {
      assert NodeOk(q, ns, op, 0);
      assert ns[0].At() == w[0] && ns[0].f <= 0;
    } else {
      var v := w[..|w| - 1];
      var p := w[|w| - 1];
      CheapestSoFar(q, ns, op, b, v);
      if b > Cost(q.tiles, v) {
        var i: nat :| i < |ns| && ns[i].At() == v[|v| - 1] && ns[i].f <= Cost(q.tiles, v);
        assert !op[i];
        var d: nat :| d < DirCount(q) && Neighbour(v[|v| - 1], d) == p;
        assert Relaxed(q, ns, i, d);
        var k :| 0 <= k < |ns| && ns[k].At() == p && ns[k].f <= ns[i].f + StepCost(q.tiles, ns[i].At(), p);
      }
    }
  }

  /** Uniform-cost optimality: a node taken while the pool has sufficed has least cost. */
  lemma {:induction false} PopIsLeast(q: Query, ns: seq<Node>, op: seq<bool>, bound: int, n: int)
    requires Searching(q, ns, op, bound, true) && IsBest(ns, op, n) && n != NO_NODE
    ensures NoCheaper(q, ns[n].At(), ns[n].f)
  {
    forall w | WalkTo(q, w, ns[n].At())
      ensures ns[n].f <= Cost(q.tiles, w)
    {
      CheapestSoFar(q, ns, op, ns[n].f, w);
      if Reached(ns, ns[n].At(), Cost(q.tiles, w)) {
        var i :| 0 <= i < |ns| && ns[i].At() == ns[n].At() && ns[i].f <= Cost(q.tiles, w);
        assert i == n;
      }
    }
  }

  // ----- the walk a node stands for

  function WalkOf(q: Query, ns: seq<Node>, op: seq<bool>, k: nat): (w: seq<Pos>)
    requires Tree(q, ns, op) && k < |ns|
    ensures |w| > 0 && w[|w| - 1] == ns[k].At()
    decreases ns[k].f
  {
    assert NodeOk(q, ns, op, k);
    if k == 0 then [ns[0].At()]
    else
      assert NodeOk(q, ns, op, ns[k].parent);
      WalkOf(q, ns, op, ns[k].parent) + [ns[k].At()]
  }

  /** A node's `f` is the cost of a real walk to it. */
  lemma {:induction false} WalkOfCost(q: Query, ns: seq<Node>, op: seq<bool>, k: nat)
    requires Tree(q, ns, op) && k < |ns|
    ensures WalkTo(q, WalkOf(q, ns, op, k), ns[k].At())
    ensures Cost(q.tiles, WalkOf(q, ns, op, k)) == ns[k].f
    decreases ns[k].f
  {
    assert NodeOk(q, ns, op, k);
    if k != 0 {
      assert NodeOk(q, ns, op, ns[k].parent);
      WalkOfCost(q, ns, op, ns[k].parent);
      ExtendWalk(q, WalkOf(q, ns, op, ns[k].parent), ns[k].At());
    }
  }

  ghost predicate Attained(q: Query, p: Pos, c: int) {
    exists w :: WalkTo(q, w, p) && Cost(q.tiles, w) == c
  }

  // ----- which end tiles have been seen

  /** `found` and `best` summarise the condition calls made on the closed nodes. */
  ghost predicate Tested(q: Query, ns: seq<Node>, op: seq<bool>, found: int, best: int)
    requires |ns| == |op|
  {
    && (found == NO_NODE ==> best == 0)
    && (found != NO_NODE ==>
          && 0 <= found < |ns| && !op[found]
          && Partial(q, ns[found].At()) && TargetDist(q, ns[found].At()) == best > 0)
    && (forall i :: 0 <= i < |ns| && !op[i] ==> Beaten(q, ns[i], if found == NO_NODE then ns[i] else ns[found], best))
  }

  ghost predicate Beaten(q: Query, n: Node, found: Node, best: int) {
    && !Exact(q, n.At())
    && (Partial(q, n.At()) ==>
          TargetDist(q, n.At()) < best || (TargetDist(q, n.At()) == best && found.f <= n.f))
  }

  /** What a search that neither ran out of nodes nor was cut short owes its caller. */
  ghost predicate BestAnswer(q: Query, ok: bool, w: seq<Pos>)
    requires ok ==> |w| > 0
  {
    if !ok then
      forall v :: IsWalk(q, v) ==> !Exact(q, v[|v| - 1]) && !Partial(q, v[|v| - 1])
    else if Exact(q, w[|w| - 1]) then
      forall v :: IsWalk(q, v) && Exact(q, v[|v| - 1]) ==> Cost(q.tiles, w) <= Cost(q.tiles, v)
    else
      forall v :: IsWalk(q, v) ==> !Exact(q, v[|v| - 1]) && Worse(q, v, w)
  }

  /** What every search owes: the best answer as far as walks cost less than `c`. */
  ghost predicate BestBelow(q: Query, ok: bool, w: seq<Pos>, c: int)
    requires ok ==> |w| > 0
  {
    forall v :: IsWalk(q, v) && Cost(q.tiles, v) < c ==>
      && !Exact(q, v[|v| - 1])
      && if ok then Exact(q, w[|w| - 1]) || Worse(q, v, w) else !Partial(q, v[|v| - 1])
  }

  /** The search's view of it: walks cheaper than `c` are no match, or no better one than was found. */
  ghost predicate SeenBelow(q: Query, c: int, found: int, node: Node, best: int) {
    forall v :: IsWalk(q, v) && Cost(q.tiles, v) < c ==>
      && !Exact(q, v[|v| - 1])
      && (Partial(q, v[|v| - 1]) ==>
            && found != NO_NODE
            && (TargetDist(q, v[|v| - 1]) < best || (TargetDist(q, v[|v| - 1]) == best && node.f <= Cost(q.tiles, v))))
  }

  ghost predicate Worse(q: Query, v: seq<Pos>, w: seq<Pos>)
    requires |v| > 0 && |w| > 0
  {
    var p, e := v[|v| - 1], w[|w| - 1];
    && Partial(q, e)
    && (Partial(q, p) ==>
          TargetDist(q, p) < TargetDist(q, e) || (TargetDist(q, p) == TargetDist(q, e) && Cost(q.tiles, w) <= Cost(q.tiles, v)))
  }

  lemma {:induction false} ExactIsNearest(q: Query, ns: seq<Node>, op: seq<bool>, bound: int, n: int, found: int, best: int, v: seq<Pos>)
    requires Searching(q, ns, op, bound, true) && IsBest(ns, op, n) && n != NO_NODE
    requires Tested(q, ns, op, found, best)
    requires IsWalk(q, v) && Exact(q, v[|v| - 1])
    ensures ns[n].f <= Cost(q.tiles, v)
  {
    CheapestSoFar(q, ns, op, ns[n].f, v);
    if Reached(ns, v[|v| - 1], Cost(q.tiles, v)) {
      var i :| 0 <= i < |ns| && ns[i].At() == v[|v| - 1] && ns[i].f <= Cost(q.tiles, v);
      assert op[i];
    }
  }

  lemma {:induction false} AllSeen(q: Query, ns: seq<Node>, op: seq<bool>, found: int, best: int, v: seq<Pos>)
    requires Tree(q, ns, op) && Closure(q, ns, op, NO_NODE, 0) && Tested(q, ns, op, found, best)
    requires IsWalk(q, v) && forall i :: 0 <= i < |ns| && op[i] ==> Cost(q.tiles, v) < ns[i].f
    ensures var p := v[|v| - 1];
      && !Exact(q, p)
      && (Partial(q, p) ==> found != NO_NODE)
      && (Partial(q, p) ==> TargetDist(q, p) < best || (TargetDist(q, p) == best && ns[found].f <= Cost(q.tiles, v)))
  {
    CheapestSoFar(q, ns, op, Cost(q.tiles, v) + 1, v);
    var i :| 0 <= i < |ns| && ns[i].At() == v[|v| - 1] && ns[i].f <= Cost(q.tiles, v);
    assert Beaten(q, ns[i], if found == NO_NODE then ns[i] else ns[found], best);
  }

  // ----- how many nodes an expansion adds

  /** Direction `d` of node `n` leads to a tile that can be entered and is not listed yet. */
  ghost predicate Missing(q: Query, ns: seq<Node>, n: nat, d: nat)
    requires n < |ns| && d < 8
  {
    var p := Neighbour(ns[n].At(), d);
    CanEnter(q, p) && IndexOf(ns, p) == NO_NODE
  }

  /** Going on in direction `d` after direction `o` stays next to where one came from. */
  predicate Shared(o: nat, d: nat)
    requires o < 8 && d < 8
  {
    -1 <= NEIGHBOURS[o].0 + NEIGHBOURS[d].0 <= 1 && -1 <= NEIGHBOURS[o].1 + NEIGHBOURS[d].1 <= 1
  }

  /** How many of the first `d` directions lead away from there. */
  function Fresh(o: nat, d: nat): (c: nat)
    requires o < 8 && d <= 8
    ensures c <= d
  {
    if d == 0 then 0 else Fresh(o, d - 1) + if Shared(o, d - 1) then 0 else 1
  }

  lemma {:induction false} FreshMore(o: nat, d: nat, e: nat)
    requires o < 8 && d <= e <= 8
    ensures Fresh(o, d) <= Fresh(o, e)
  {
    if d < e { FreshMore(o, d, e - 1); }
  }

  lemma {:induction false} FreshAtMost5(o: nat)
    requires o < 8
    ensures Fresh(o, 8) <= 5
  {
    assert Fresh(o, 2) == (if Shared(o, 0) then 0 else 1) + (if Shared(o, 1) then 0 else 1);
    assert Fresh(o, 4) == Fresh(o, 2) + (if Shared(o, 2) then 0 else 1) + (if Shared(o, 3) then 0 else 1);
    assert Fresh(o, 6) == Fresh(o, 4) + (if Shared(o, 4) then 0 else 1) + (if Shared(o, 5) then 0 else 1);
    assert Fresh(o, 8) == Fresh(o, 6) + (if Shared(o, 6) then 0 else 1) + (if Shared(o, 7) then 0 else 1);
  }

  lemma {:induction false} WrapTwice(n: int, i: int, j: int)
    ensures Wrap(Wrap(n + i) + j) == Wrap(n + (i + j))
  {
  }

  lemma {:induction false} TwoSteps(p: Pos, o: nat, d: nat)
    requires o < 8 && d < 8
    ensures var x, y := NEIGHBOURS[o].0 + NEIGHBOURS[d].0, NEIGHBOURS[o].1 + NEIGHBOURS[d].1;
      Neighbour(Neighbour(p, o), d) == Pos(Wrap(p.x + x), Wrap(p.y + y))
  {
    hide Wrap;
    WrapTwice(p.x, NEIGHBOURS[o].0, NEIGHBOURS[d].0);
    WrapTwice(p.y, NEIGHBOURS[o].1, NEIGHBOURS[d].1);
  }

  lemma {:induction false} WrapNothing(n: int)
    requires 0 <= n < COORDS
    ensures Wrap(n + 0) == n
  {
  }

  lemma {:induction false} SharedIsAround(p: Pos, o: nat, d: nat)
    requires IsPos(p) && o < 8 && d < 8 && Shared(o, d)
    ensures var r := Neighbour(Neighbour(p, o), d);
      r == p || exists e: nat :: e < 8 && r == Neighbour(p, e)
  {
    hide Wrap, DirectionOf;
    var x, y := NEIGHBOURS[o].0 + NEIGHBOURS[d].0, NEIGHBOURS[o].1 + NEIGHBOURS[d].1;
    TwoSteps(p, o, d);
    if x == 0 && y == 0 {
      WrapNothing(p.x);
      WrapNothing(p.y);
    } else {
      hide Shared;
      var e := DirectionOf(x, y);
      assert Neighbour(p, e) == Pos(Wrap(p.x + x), Wrap(p.y + y));
    }
  }

  /** What lies around its parent, which has been expanded, is listed before a node is. */
  lemma {:induction false} ParentCovers(q: Query, ns: seq<Node>, op: seq<bool>, n: nat, upto: nat, o: nat, d: nat)
    requires Expanding(q, ns, op, n, upto, true) && n != 0 && q.fpp.allowDiagonal && o < 8 && d < 8 && Shared(o, d)
    requires 0 <= ns[n].parent < |ns| && Neighbour(ns[ns[n].parent].At(), o) == ns[n].At()
    ensures !Missing(q, ns, n, d)
  {
    assert NodeOk(q, ns, op, n);
    var i := ns[n].parent;
    assert NodeOk(q, ns, op, i);
    var r := Neighbour(ns[n].At(), d);
    SharedIsAround(ns[i].At(), o, d);
    if r != ns[i].At() && CanEnter(q, r) {
      var e: nat :| e < 8 && r == Neighbour(ns[i].At(), e);
      assert Relaxed(q, ns, i, e);
    }
  }

  /** `o` is the direction node `n` was reached in from its parent. */
  ghost predicate CameFrom(q: Query, ns: seq<Node>, n: nat, o: nat)
    requires n < |ns| && o < 8
  {
    n != 0 ==> 0 <= ns[n].parent < |ns| && Neighbour(ns[ns[n].parent].At(), o) == ns[n].At()
  }

  lemma {:induction false} Origin(q: Query, ns: seq<Node>, op: seq<bool>, n: nat) returns (o: nat)
    requires Tree(q, ns, op) && n < |ns|
    ensures o < 8 && CameFrom(q, ns, n, o)
  {
    assert NodeOk(q, ns, op, n);
    o := 0;
    if n != 0 { o :| o < 8 && Neighbour(ns[ns[n].parent].At(), o) == ns[n].At(); }
  }

  /** The nodes the first `d` directions can add. */
  function Growth(q: Query, n: nat, o: nat, d: nat): (g: nat)
    requires o < 8 && d <= DirCount(q)
    ensures g <= d
  {
    if q.fpp.allowDiagonal && n != 0 then Fresh(o, d) else d
  }

  lemma {:induction false} GrowthNext(q: Query, ns0: seq<Node>, op0: seq<bool>, ns: seq<Node>, op: seq<bool>, n: nat, o: nat, d: nat)
    requires Tree(q, ns0, op0) && n < |ns0| && !op0[n] && KeepsClosed(ns0, op0, ns, op) && Expanding(q, ns, op, n, d, true)
    requires o < 8 && CameFrom(q, ns0, n, o) && d < DirCount(q)
    ensures Growth(q, n, o, d) + (if Missing(q, ns, n, d) then 1 else 0) <= Growth(q, n, o, d + 1)
  {
    hide Missing, Shared, Neighbour;
    assert NodeOk(q, ns0, op0, n);
    if q.fpp.allowDiagonal && n != 0 && Shared(o, d) { ParentCovers(q, ns, op, n, d, o, d); }
  }

  /** The start adds at most its eight neighbours, every other node five, the others being next to its parent. */
  lemma {:induction false} GrowthAtMost5(q: Query, n: nat, o: nat, d: nat)
    requires o < 8 && d <= DirCount(q)
    ensures Growth(q, n, o, d) <= if n == 0 then 8 else 5
  {
    FreshMore(o, d, 8);
    FreshAtMost5(o);
  }

  /** While no node is missing the list has at most nine nodes, and five more for each further node closed. */
  ghost predicate Sized(ns: seq<Node>, op: seq<bool>) {
    0 < |ns| == |op| && if op[0] then |ns| == 1 else |ns| <= 4 + 5 * CountClosed(op)
  }

  lemma {:induction false} SizedNext(ns: seq<Node>, op: seq<bool>, n: nat, ns': seq<Node>, op': seq<bool>)
    requires Sized(ns, op) && n < |ns| && op[n] && KeepsClosed(ns, op[n := false], ns', op')
    requires |ns'| <= |ns| + if n == 0 then 8 else 5
    ensures Sized(ns', op') && CountClosed(op') == CountClosed(op) + 1
  {
    CountClosedOne(op, n);
  }

  // ----- how long a walk can be

  function ClosedBelow(ns: seq<Node>, op: seq<bool>, c: int): set<int>
    requires |ns| == |op|
  {
    set i | 0 <= i < |ns| && !op[i] && ns[i].f < c
  }

  lemma {:induction false} ClosedFits(ns: seq<Node>, op: seq<bool>, c: int)
    requires |ns| == |op|
    ensures |ClosedBelow(ns, op, c)| <= CountClosed(op)
  {
    if op != [] {
      var k := |op| - 1;
      var S := ClosedBelow(ns[..k], op[..k], c);
      ClosedFits(ns[..k], op[..k], c);
      assert ClosedBelow(ns, op, c) == if !op[k] && ns[k].f < c then S + {k} else S;
    }
  }

  lemma {:induction false} Subset(a: set<int>, b: set<int>, x: int)
    requires a <= b && x in b && x !in a
    ensures |a| + 1 <= |b|
  {
    assert b == a + {x} + (b - a - {x});
  }

  /** Along a walk every tile but the last was taken before the next. */
  lemma {:induction false} WalkOfShort(q: Query, ns: seq<Node>, op: seq<bool>, k: nat)
    requires Tree(q, ns, op) && k < |ns|
    ensures |WalkOf(q, ns, op, k)| - 1 <= |ClosedBelow(ns, op, ns[k].f)|
    decreases ns[k].f
  {
    assert NodeOk(q, ns, op, k);
    if k != 0 {
      var p := ns[k].parent;
      assert NodeOk(q, ns, op, p);
      WalkOfShort(q, ns, op, p);
      Subset(ClosedBelow(ns, op, ns[p].f), ClosedBelow(ns, op, ns[k].f), p);
    }
  }

  /** A walk has at most one tile more than nodes were taken, and no more than those when its last one was taken. */
  lemma {:induction false} WalkFits(q: Query, ns: seq<Node>, op: seq<bool>, k: nat)
    requires Tree(q, ns, op) && k < |ns|
    ensures |WalkOf(q, ns, op, k)| <= CountClosed(op) + if op[k] then 1 else 0
  {
    WalkOfShort(q, ns, op, k);
    ClosedFits(ns, op, ns[k].f + 1);
    ClosedFits(ns, op, ns[k].f);
    if !op[k] { Subset(ClosedBelow(ns, op, ns[k].f), ClosedBelow(ns, op, ns[k].f + 1), k); }
  }

  // ----- the search itself

  /** The body of the neighbour loop. False when a node was needed and the pool is used up. */
  method RelaxNeighbour(q: Query, pool: Pool, n: nat, d: nat, ghost complete: bool) returns (ok: bool)
    requires pool.Valid() && n < |pool.Nodes()| && d < DirCount(q)
    requires Expanding(q, pool.Nodes(), pool.Open()[n := false], n, d, complete)
    modifies pool, pool.nodes, pool.openNodes
    ensures pool.Valid() && n < |pool.Nodes()|
    ensures ok ==> Expanding(q, pool.Nodes(), pool.Open()[n := false], n, d + 1, complete)
    ensures !ok ==> pool.Nodes() == old(pool.Nodes()) && pool.Open() == old(pool.Open())
    ensures !ok ==> |pool.Nodes()| == MAX_NODES
    ensures KeepsClosed(old(pool.Nodes()), old(pool.Open()[n := false]), pool.Nodes(), pool.Open()[n := false])
    ensures |pool.Nodes()| <= |old(pool.Nodes())| + if Missing(q, old(pool.Nodes()), n, d) then 1 else 0
  {
    ghost var ns, op := pool.Nodes(), pool.Open()[n := false];
    var node := pool.nodes[n];
    var pos := Neighbour(node.At(), d);
    if !CanEnter(q, pos) {
      if complete { ClosureGrows(q, ns, op, n, d, ns, op); }
      return true;
    }
    var newf := node.f + StepCost(q.tiles, node.At(), pos);
    var k := pool.GetNodeInList(pos);
    if k != NO_NODE {
      if pool.nodes[k].f <= newf {
        RelaxKnown(q, ns, op, n, d, complete, k);
        return true;
      }
      pool.OpenNode(k);
    } else {
      k := pool.CreateOpenNode();
      if k == NO_NODE {
        return false;
      }
    }
    var m := Node(pos.x, pos.y, n, newf, 0, 0);
    assert node == ns[n] && k != n;
    assert pool.Open()[n := false] == Put(op, k, true);
    pool.SetNode(k, m);
    assert pool.Nodes() == Put(ns, k, m);
    RelaxKeeps(q, ns, op, n, d, complete, k, m);
    return true;
  }

  /** After `d` directions of node `n`, or after nodes have run out in the one after. */
  ghost predicate Midway(q: Query, ns0: seq<Node>, op0: seq<bool>, ns: seq<Node>, op: seq<bool>,
                         n: nat, o: nat, d: nat, complete: bool, ok: bool)
  {
    && Tree(q, ns0, op0) && n < |ns0| && !op0[n] && o < 8 && CameFrom(q, ns0, n, o) && d <= DirCount(q)
    && KeepsClosed(ns0, op0, ns, op)
    && Expanding(q, ns, op, n, if complete && ok then d else 0, complete && ok)
    && (complete ==> |ns| <= |ns0| + Growth(q, n, o, d))
    && (!ok ==> |ns| == MAX_NODES)
  }

  lemma {:induction false} MidwayStart(q: Query, ns: seq<Node>, op: seq<bool>, n: nat, o: nat, complete: bool)
    requires Expanding(q, ns, op, n, 0, complete) && o < 8 && CameFrom(q, ns, n, o)
    ensures Midway(q, ns, op, ns, op, n, o, 0, complete, true)
  {
  }

  lemma {:induction false} MidwayIs(q: Query, ns0: seq<Node>, op0: seq<bool>, ns: seq<Node>, op: seq<bool>,
                                    n: nat, o: nat, d: nat, complete: bool)
    requires Midway(q, ns0, op0, ns, op, n, o, d, complete, true)
    ensures d <= DirCount(q) <= 8 && Expanding(q, ns, op, n, d, complete)
  {
    hide KeepsClosed, CameFrom, Tree, Growth, Layered, Cheap;
  }

  lemma {:induction false} MidwayNext(q: Query, ns0: seq<Node>, op0: seq<bool>, ns: seq<Node>, op: seq<bool>,
                                      n: nat, o: nat, d: nat, complete: bool, ns': seq<Node>, op': seq<bool>, ok: bool)
    requires Midway(q, ns0, op0, ns, op, n, o, d, complete, true) && d < DirCount(q)
    requires |ns| == |op| && KeepsClosed(ns, op, ns', op') && n < |ns|
    requires if ok then Expanding(q, ns', op', n, d + 1, complete) else ns' == ns && op' == op && |ns| == MAX_NODES
    requires |ns'| <= |ns| + if Missing(q, ns, n, d) then 1 else 0
    ensures Midway(q, ns0, op0, ns', op', n, o, if ok then d + 1 else d, complete, ok)
  {
    if complete { GrowthNext(q, ns0, op0, ns, op, n, o, d); }
    hide Missing, Growth, CameFrom, Tree, Layered, Cheap;
  }

  lemma {:induction false} MidwayEnd(q: Query, ns0: seq<Node>, op0: seq<bool>, ns: seq<Node>, op: seq<bool>,
                                     n: nat, o: nat, d: nat, complete: bool, ok: bool)
    requires Midway(q, ns0, op0, ns, op, n, o, d, complete, ok) && (!ok || d == DirCount(q))
    ensures n < |ns| == |op| && n < |ns0| && ns[n] == ns0[n] && KeepsClosed(ns0, op0, ns, op)
    ensures Searching(q, ns, op, ns[n].f, complete && ok) && (!ok ==> |ns| == MAX_NODES)
    ensures complete ==> |ns| <= |ns0| + if n == 0 then 8 else 5
  {
    GrowthAtMost5(q, n, o, d);
    ExpandedKeeps(q, ns, op, n, complete && ok);
  }

  /** The neighbour loop for one node, ending with `closeNode`. When nodes run out the original
      leaves the loop if something was found, and gives up otherwise. */
  method Expand(q: Query, pool: Pool, n: nat, ghost complete: bool) returns (ok: bool)
    requires pool.Valid() && n < |pool.Nodes()|
    requires Expanding(q, pool.Nodes(), pool.Open()[n := false], n, 0, complete)
    modifies pool, pool.nodes, pool.openNodes
    ensures pool.Valid()
    ensures n < |pool.Nodes()| && pool.Nodes()[n] == old(pool.Nodes()[n])
    ensures Searching(q, pool.Nodes(), pool.Open(), pool.Nodes()[n].f, complete && ok)
    ensures !ok ==> |pool.Nodes()| == MAX_NODES
    ensures KeepsClosed(old(pool.Nodes()), old(pool.Open()[n := false]), pool.Nodes(), pool.Open())
    ensures complete ==> |pool.Nodes()| <= |old(pool.Nodes())| + if n == 0 then 8 else 5
  {
    ghost var ns, op := pool.Nodes(), pool.Open()[n := false];
    ghost var o := Origin(q, ns, op, n);
    MidwayStart(q, ns, op, n, o, complete);
    hide Expanding, Growth, KeepsClosed, Missing, Tree, Searching, DirCount, CameFrom, Midway;
    ok := true;
    var d := 0;
    while ok && d < DirCount(q)
      invariant d <= DirCount(q) && pool.Valid() && n < |pool.Nodes()|
      invariant Midway(q, ns, op, pool.Nodes(), pool.Open()[n := false], n, o, d, complete, ok)
      decreases DirCount(q) - d, ok
    {
      ghost var now, flags := pool.Nodes(), pool.Open()[n := false];
      MidwayIs(q, ns, op, now, flags, n, o, d, complete);
      ok := RelaxNeighbour(q, pool, n, d, complete);
      MidwayNext(q, ns, op, now, flags, n, o, d, complete, pool.Nodes(), pool.Open()[n := false], ok);
      if ok { d := d + 1; }
    }
    MidwayEnd(q, ns, op, pool.Nodes(), pool.Open()[n := false], n, o, d, complete, ok);
    pool.CloseNode(n);
  }

  /** Going up one parent moves one position from the walk still ahead to the tail already listed. */
  lemma {:induction false} WalkOfUp(q: Query, ns: seq<Node>, op: seq<bool>, cur: nat, tail: seq<Pos>)
    requires Tree(q, ns, op) && cur < |ns| && |tail| > 0 && tail[0] == ns[cur].At() && ns[cur].parent != NO_NODE
    ensures 0 <= ns[cur].parent < |ns|
    ensures var p, pos := ns[cur].parent, ns[ns[cur].parent].At();
      && WalkOf(q, ns, op, cur) + tail[1..] == WalkOf(q, ns, op, p) + ([pos] + tail)[1..]
      && DirsOf([pos] + tail) == DirStep(pos, tail[0]) + DirsOf(tail)
  {
    assert NodeOk(q, ns, op, cur);
    var pos := ns[ns[cur].parent].At();
    assert ([pos] + tail)[1..] == tail == [tail[0]] + tail[1..];
  }

  lemma {:induction false} ParentOk(q: Query, ns: seq<Node>, op: seq<bool>, k: nat)
    requires Tree(q, ns, op) && k < |ns|
    ensures ns[k].parent == NO_NODE ==> k == 0
    ensures ns[k].parent != NO_NODE ==> 0 <= ns[k].parent < |ns| && 0 <= ns[ns[k].parent].f < ns[k].f
  {
    assert NodeOk(q, ns, op, k);
    if k != 0 { assert NodeOk(q, ns, op, ns[k].parent); }
  }

  /** Walks the parents from the found node, pushing directions at the front. */
  method BuildDirections(q: Query, pool: Pool, found: nat) returns (dirs: seq<Direction>)
    requires pool.Valid() && found < |pool.Nodes()| && Tree(q, pool.Nodes(), pool.Open())
    ensures dirs == DirsOf(WalkOf(q, pool.Nodes(), pool.Open(), found))
  {
    ghost var ns, op := pool.Nodes(), pool.Open();
    ghost var w := WalkOf(q, ns, op, found);
    dirs := [];
    var cur, prev, node := found, pool.nodes[found].At(), pool.nodes[found].parent;
    ghost var tail := [prev];
    while node != NO_NODE
      invariant 0 <= cur < |ns| && prev == ns[cur].At() && node == ns[cur].parent
      invariant |tail| > 0 && tail[0] == prev && dirs == DirsOf(tail)
      invariant w == WalkOf(q, ns, op, cur) + tail[1..]
      decreases ns[cur].f
    {
      WalkOfUp(q, ns, op, cur, tail);
      ParentOk(q, ns, op, cur);
      var pos := pool.nodes[node].At();
      dirs := DirStep(pos, prev) + dirs;
      tail := [pos] + tail;
      cur, prev, node := node, pos, pool.nodes[node].parent;
    }
    ParentOk(q, ns, op, cur);
    assert w == tail;
  }

  /** The nodes taken so far: in order of cost, each position once, each still in the pool. */
  ghost predicate Taken(ns: seq<Node>, op: seq<bool>, pops: seq<Node>)
    requires |ns| == |op|
  {
    && |pops| == CountClosed(op)
    && (forall i :: 0 <= i < |pops| ==> exists k :: 0 <= k < |ns| && !op[k] && ns[k] == pops[i])
    && InOrder(pops)
  }

  ghost predicate InOrder(pops: seq<Node>) {
    forall i, j :: 0 <= i < j < |pops| ==> pops[i].f <= pops[j].f && pops[i].At() != pops[j].At()
  }

  ghost predicate AllLeast(q: Query, pops: seq<Node>) {
    forall n :: n in pops ==> NoCheaper(q, n.At(), n.f)
  }

  lemma {:induction false} CountFits(op: seq<bool>)
    ensures CountClosed(op) <= |op|
  {
  }

  lemma {:induction false} TakeNext(q: Query, ns: seq<Node>, op: seq<bool>, bound: int, complete: bool, n: int, pops: seq<Node>)
    requires Searching(q, ns, op, bound, complete) && IsBest(ns, op, n) && n != NO_NODE && Taken(ns, op, pops)
    ensures Taken(ns, op[n := false], pops + [ns[n]])
  {
    CountClosedOne(op, n);
    var op', pops' := op[n := false], pops + [ns[n]];
    forall i | 0 <= i < |pops'|
      ensures exists k :: 0 <= k < |ns| && !op'[k] && ns[k] == pops'[i]
      ensures i < |pops| ==> pops'[i].f <= ns[n].f && pops'[i].At() != ns[n].At()
    {
      if i < |pops| {
        var k :| 0 <= k < |ns| && !op[k] && ns[k] == pops[i];
        assert !op'[k] && k != n;
      } else {
        assert !op'[n];
      }
    }
  }

  lemma {:induction false} TakenKept(ns: seq<Node>, op: seq<bool>, ns': seq<Node>, op': seq<bool>, pops: seq<Node>)
    requires |ns| == |op| && Taken(ns, op, pops) && KeepsClosed(ns, op, ns', op')
    ensures Taken(ns', op', pops)
  {
    forall i | 0 <= i < |pops|
      ensures exists k :: 0 <= k < |ns'| && !op'[k] && ns'[k] == pops[i]
    {
      var k :| 0 <= k < |ns| && !op[k] && ns[k] == pops[i];
      assert !op'[k] && ns'[k] == pops[i];
    }
  }

  lemma {:induction false} TestedKept(q: Query, ns: seq<Node>, op: seq<bool>, ns': seq<Node>, op': seq<bool>, found: int, best: int)
    requires |ns| == |op| && Tested(q, ns, op, found, best) && KeepsClosed(ns, op, ns', op')
    ensures Tested(q, ns', op', found, best)
  {
    forall i | 0 <= i < |ns'| && !op'[i]
      ensures Beaten(q, ns'[i], if found == NO_NODE then ns'[i] else ns'[found], best)
    {
      assert Beaten(q, ns[i], if found == NO_NODE then ns[i] else ns[found], best);
    }
  }

  /** Calling the condition on the node just taken. */
  lemma {:induction false} TestNext(q: Query, ns: seq<Node>, op: seq<bool>, bound: int, complete: bool, n: int, found: int, best: int)
    requires Searching(q, ns, op, bound, complete) && IsBest(ns, op, n) && n != NO_NODE
    requires Tested(q, ns, op, found, best) && best >= 0 && (q.fpp.maxTargetDist == 1 ==> best == 0)
    ensures var (accepted, best') := PathCondition(q, ns[n].At(), best);
      && (accepted && best' == 0 ==> Exact(q, ns[n].At()))
      && (!(accepted && best' == 0) ==>
            best' >= 0 && (q.fpp.maxTargetDist == 1 ==> best' == 0) &&
            Tested(q, ns, op[n := false], if accepted then n else found, best'))
  {
    PathConditionMeaning(q, ns[n].At(), best);
    var (accepted, best') := PathCondition(q, ns[n].At(), best);
    if !(accepted && best' == 0) {
      var found' := if accepted then n else found;
      var op' := op[n := false];
      forall i | 0 <= i < |ns| && !op'[i]
        ensures Beaten(q, ns[i], if found' == NO_NODE then ns[i] else ns[found'], best')
      {
        if i != n {
          assert Beaten(q, ns[i], if found == NO_NODE then ns[i] else ns[found], best);
        }
      }
    }
  }

  // ----- the whole loop

  /** Everything known between two pops. `good` counts the nodes taken while the pool sufficed. */
  ghost predicate Progress(q: Query, ns: seq<Node>, op: seq<bool>, bound: int, complete: bool,
                           found: int, best: int, pops: seq<Node>, good: nat)
  {
    && Searching(q, ns, op, bound, complete)
    && Taken(ns, op, pops) && Tested(q, ns, op, found, best)
    && best >= 0 && (q.fpp.maxTargetDist == 1 ==> best == 0)
    && (forall n :: n in pops ==> n.f <= 85 * 511 && Attained(q, n.At(), n.f))
    && good <= |pops| && AllLeast(q, pops[..good]) && (complete ==> good == |pops| && Sized(ns, op))
    && (found != NO_NODE ==> ns[found] in pops)
    && (good > 0 ==> SeenBelow(q, pops[good - 1].f, found, if found == NO_NODE then ns[0] else ns[found], best))
  }

  lemma {:induction false} ProgressShape(q: Query, ns: seq<Node>, op: seq<bool>, bound: int, complete: bool,
                                         found: int, best: int, pops: seq<Node>, good: nat)
    requires Progress(q, ns, op, bound, complete, found, best, pops, good)
    ensures |ns| == |op| <= MAX_NODES && |pops| == CountClosed(op) && NO_NODE <= found < |ns| && best >= 0
    ensures forall n :: IsBest(ns, op, n) ==> if n != NO_NODE then 0 <= n < |ns| && op[n] else
      forall i :: 0 <= i < |ns| ==> !op[i]
  {
    hide Tested, AllLeast, Attained, Sized, Closure, Layered, NodeOk;
    FoundInside(q, ns, op, found, best);
    forall n | IsBest(ns, op, n)
      ensures if n != NO_NODE then 0 <= n < |ns| && op[n] else forall i :: 0 <= i < |ns| ==> !op[i]
    {
      SentinelNeverHides(ns, op, n);
    }
  }

  lemma {:induction false} FoundInside(q: Query, ns: seq<Node>, op: seq<bool>, found: int, best: int)
    requires |ns| == |op| && Tested(q, ns, op, found, best)
    ensures NO_NODE <= found < |ns|
  {
  }

  lemma {:induction false} InitialProgress(q: Query, ns: seq<Node>, op: seq<bool>)
    requires IsPos(q.start) && ns == [Node(q.start.x, q.start.y, NO_NODE, 0, 0, 0)] && op == [true]
    ensures Progress(q, ns, op, 0, true, NO_NODE, 0, [], 0)
  {
    assert NodeOk(q, ns, op, 0);
  }

  lemma {:induction false} AttainedNext(q: Query, ns: seq<Node>, op: seq<bool>, n: nat)
    requires Tree(q, ns, op) && n < |ns|
    ensures Attained(q, ns[n].At(), ns[n].f)
  {
    WalkOfCost(q, ns, op, n);
  }

  lemma {:induction false} LeastNext(q: Query, ns: seq<Node>, op: seq<bool>, bound: int, complete: bool, n: int, pops: seq<Node>, good: nat)
    requires Searching(q, ns, op, bound, complete) && IsBest(ns, op, n) && n != NO_NODE
    requires good <= |pops| && AllLeast(q, pops[..good]) && (complete ==> good == |pops|)
    requires forall m :: m in pops ==> m.f <= 85 * 511 && Attained(q, m.At(), m.f)
    ensures var pops', good' := pops + [ns[n]], if complete then good + 1 else good;
      && good' <= |pops'| && AllLeast(q, pops'[..good']) && (complete ==> good' == |pops'|)
      && (forall m :: m in pops' ==> m.f <= 85 * 511 && Attained(q, m.At(), m.f))
  {
    SentinelNeverHides(ns, op, n);
    AttainedNext(q, ns, op, n);
    hide Attained;
    var pops' := pops + [ns[n]];
    if complete {
      PopIsLeast(q, ns, op, bound, n);
      assert pops'[..good + 1] == pops[..good] + [ns[n]];
    } else {
      assert pops'[..good] == pops[..good];
    }
  }

  lemma {:induction false} FoundKept(q: Query, ns: seq<Node>, op: seq<bool>, found: int, best: int, n: nat, ns': seq<Node>, op': seq<bool>)
    requires |ns| == |op| && n < |ns| && Tested(q, ns, op, found, best) && KeepsClosed(ns, op[n := false], ns', op')
    ensures |ns'| == |op'| && (found != NO_NODE ==> 0 <= found < |ns'| && ns'[found] == ns[found])
  {
  }

  /** Before a node is taken while the pool has sufficed, all that costs less has been tested. */
  lemma {:induction false} SeenNext(q: Query, ns: seq<Node>, op: seq<bool>, bound: int, n: int, found: int, best: int)
    requires Searching(q, ns, op, bound, true) && IsBest(ns, op, n) && n != NO_NODE && Tested(q, ns, op, found, best)
    ensures SeenBelow(q, ns[n].f, found, if found == NO_NODE then ns[0] else ns[found], best)
  {
    forall v | IsWalk(q, v) && Cost(q.tiles, v) < ns[n].f
      ensures var p := v[|v| - 1];
        && !Exact(q, p)
        && (Partial(q, p) ==> found != NO_NODE)
        && (Partial(q, p) ==> TargetDist(q, p) < best || (TargetDist(q, p) == best && ns[found].f <= Cost(q.tiles, v)))
    {
      AllSeen(q, ns, op, found, best, v);
    }
  }

  /** A better match found later keeps that. */
  lemma {:induction false} SeenTested(q: Query, c: int, found: int, node: Node, best: nat, n: nat, m: Node)
    requires SeenBelow(q, c, found, node, best) && (q.fpp.maxTargetDist == 1 ==> best == 0)
    requires var (accepted, best') := PathCondition(q, m.At(), best); !(accepted && best' == 0)
    ensures var (accepted, best') := PathCondition(q, m.At(), best);
      SeenBelow(q, c, if accepted then n else found, if accepted then m else node, best')
  {
    PathConditionMeaning(q, m.At(), best);
    hide PathCondition, Exact, Partial, TargetDist, IsWalk, Cost;
  }

  /** The two together, over one turn. */
  lemma {:induction false} SeenTurn(q: Query, ns: seq<Node>, op: seq<bool>, bound: int, complete: bool,
                                    found: int, best: int, pops: seq<Node>, good: nat, n: int)
    requires Progress(q, ns, op, bound, complete, found, best, pops, good)
    requires IsBest(ns, op, n) && n != NO_NODE
    ensures |ns| == |op| && 0 <= n < |ns| && NO_NODE <= found < |ns| && best >= 0
    ensures var good', pops' := if complete then good + 1 else good, pops + [ns[n]];
      good' > 0 ==> good' <= |pops'| && SeenBelow(q, pops'[good' - 1].f, found, if found == NO_NODE then ns[0] else ns[found], best)
    ensures var good', pops' := if complete then good + 1 else good, pops + [ns[n]];
      var (accepted, best') := PathCondition(q, ns[n].At(), best);
      !(accepted && best' == 0) && good' > 0 ==>
        SeenBelow(q, pops'[good' - 1].f, if accepted then n else found,
                  if accepted then ns[n] else if found == NO_NODE then ns[0] else ns[found], best')
  {
    hide Taken, Tested, AllLeast, Attained, Sized, PathCondition, Tree, Layered, Cheap, Closure, IsBest, SeenBelow;
    ProgressShape(q, ns, op, bound, complete, found, best, pops, good);
    var good', pops' := if complete then good + 1 else good, pops + [ns[n]];
    if complete { SeenNext(q, ns, op, bound, n, found, best); }
    var (accepted, best') := PathCondition(q, ns[n].At(), best);
    if !(accepted && best' == 0) && good' > 0 {
      SeenTested(q, pops'[good' - 1].f, found, if found == NO_NODE then ns[0] else ns[found], best, n, ns[n]);
    }
  }

  /** One turn of the loop that does not end it. */
  lemma {:induction false} NextProgress(q: Query, ns: seq<Node>, op: seq<bool>, bound: int, complete: bool,
                     found: int, best: int, pops: seq<Node>, good: nat,
                     n: int, ns': seq<Node>, op': seq<bool>, complete': bool)
    requires Progress(q, ns, op, bound, complete, found, best, pops, good)
    requires IsBest(ns, op, n) && n != NO_NODE
    requires var (accepted, best') := PathCondition(q, ns[n].At(), best); !(accepted && best' == 0)
    requires KeepsClosed(ns, op[n := false], ns', op') && (complete' ==> complete)
    requires complete ==> |ns'| <= |ns| + if n == 0 then 8 else 5
    requires n < |ns'| && ns'[n] == ns[n] && Searching(q, ns', op', ns'[n].f, complete')
    ensures var (accepted, best') := PathCondition(q, ns[n].At(), best);
      Progress(q, ns', op', ns'[n].f, complete', if accepted then n else found, best',
               pops + [ns[n]], if complete then good + 1 else good)
  {
    hide Taken, Tested, AllLeast, Attained, Sized, PathCondition, Tree, Layered, Cheap, Closure, KeepsClosed, IsBest,
      InOrder, TargetDist, Exact, Partial;
    ProgressShape(q, ns, op, bound, complete, found, best, pops, good);
    var (accepted, best') := PathCondition(q, ns[n].At(), best);
    var found' := if accepted then n else found;
    var pops' := pops + [ns[n]];
    TakeNext(q, ns, op, bound, complete, n, pops);
    TakenKept(ns, op[n := false], ns', op', pops');
    TestNext(q, ns, op, bound, complete, n, found, best);
    TestedKept(q, ns, op[n := false], ns', op', found', best');
    LeastNext(q, ns, op, bound, complete, n, pops, good);
    if complete { SizedNext(ns, op, n, ns', op'); }
    FoundKept(q, ns, op, found, best, n, ns', op');
    SeenTurn(q, ns, op, bound, complete, found, best, pops, good, n);
    hide SeenBelow;
    assert pops'[|pops|] == ns[n];
  }

  /** How a search ended: on its own, after the pool had run out of nodes at least once, or because
      of the limit on closed nodes. */
  datatype Ending = Natural | OutOfNodes | CutShort

  /** Search distances whose box of positions does not fit the pool. */
  predicate MayRunOut(q: Query) { q.fpp.maxSearchDist >= 11 }

  /** The pool only runs out when the search distance allows more than 512 positions: without a distance,
      100 closed nodes have added at most 503 to the start. */
  lemma {:induction false} PoolSuffices(q: Query, ns: seq<Node>, op: seq<bool>)
    requires Tree(q, ns, op) && |ns| == MAX_NODES
    requires q.fpp.maxSearchDist == -1 ==> Sized(ns, op) && CountClosed(op) <= 100
    ensures MayRunOut(q)
  {
    if !MayRunOut(q) && q.fpp.maxSearchDist != -1 {
      forall i | 0 <= i < |ns|
        ensures Near(q.start, 10, ns[i].At())
      {
        assert NodeOk(q, ns, op, i);
      }
      BoxFits(ns, q.start);
    }
  }

  /** What is promised about the nodes taken: in order of cost, none twice, at most 512 of them, or 100
      without a search distance, each far below the sentinel and at the cost of a walk to it, and each of
      least cost while the pool sufficed. */
  ghost predicate SoundOrder(q: Query, pops: seq<Node>, good: nat) {
    && InOrder(pops) && |pops| <= MAX_NODES && (q.fpp.maxSearchDist == -1 ==> |pops| <= 100)
    && (forall n :: n in pops ==> n.f <= 85 * 511 < BEST_NODE_LIMIT && Attained(q, n.At(), n.f))
    && good <= |pops| && AllLeast(q, pops[..good])
  }

  /** What is promised when the loop is left with `found`. */
  ghost predicate Outcome(q: Query, ns: seq<Node>, op: seq<bool>, found: int, pops: seq<Node>, good: nat, ending: Ending) {
    && SoundOrder(q, pops, good) && Tree(q, ns, op) && NO_NODE <= found < |ns|
    && (found != NO_NODE ==>
          var w := WalkOf(q, ns, op, found);
          && IsWalk(q, w) && Candidate(q, w[|w| - 1]) && |w| <= |pops|
          && (good == |pops| ==> NoCheaper(q, w[|w| - 1], Cost(q.tiles, w)))
          && (ending == Natural ==> BestAnswer(q, true, w)))
    && (ending == Natural ==> good == |pops| && (found == NO_NODE ==> BestAnswer(q, false, [])))
    && (ending == OutOfNodes ==> MayRunOut(q)) && (!MayRunOut(q) ==> good == |pops|)
    && (ending == CutShort ==>
          q.fpp.maxSearchDist == -1 && |pops| == 100)
    && (good > 0 ==>
          BestBelow(q, found != NO_NODE, if found == NO_NODE then [] else WalkOf(q, ns, op, found), pops[good - 1].f))
  }

  /** The node that ends the search at once is the nearest exact one. */
  lemma {:induction false} ExactOutcome(q: Query, ns: seq<Node>, op: seq<bool>, bound: int, complete: bool,
                     found: int, best: int, pops: seq<Node>, good: nat, n: int)
    requires Progress(q, ns, op, bound, complete, found, best, pops, good) && (!complete ==> MayRunOut(q))
    requires IsBest(ns, op, n) && n != NO_NODE && PathCondition(q, ns[n].At(), best) == (true, 0)
    requires q.fpp.maxSearchDist == -1 ==> CountClosed(op) < 100
    ensures Outcome(q, ns, op, n, pops + [ns[n]], if complete then good + 1 else good,
                    if complete then Natural else OutOfNodes)
    ensures Exact(q, ns[n].At())
  {
    hide Attained, Sized, Tree, IsWalk, Cost, Tested, Layered, Cheap, Closure, PathCondition, BestAnswer, NoCheaper,
      Candidate, InOrder, AllLeast, WalkOf;
    SeenTurn(q, ns, op, bound, complete, found, best, pops, good, n);
    ProgressShape(q, ns, op, bound, complete, found, best, pops, good);
    WalkOfCost(q, ns, op, n);
    TestNext(q, ns, op, bound, complete, n, found, best);
    TakeNext(q, ns, op, bound, complete, n, pops);
    LeastNext(q, ns, op, bound, complete, n, pops, good);
    CountClosedOne(op, n);
    WalkFits(q, ns, op, n);
    if complete { ExactAnswer(q, ns, op, bound, n, found, best); }
  }

  lemma {:induction false} ExactAnswer(q: Query, ns: seq<Node>, op: seq<bool>, bound: int, n: int, found: int, best: int)
    requires Searching(q, ns, op, bound, true) && Tested(q, ns, op, found, best)
    requires IsBest(ns, op, n) && n != NO_NODE && Exact(q, ns[n].At())
    ensures NoCheaper(q, ns[n].At(), ns[n].f) && BestAnswer(q, true, WalkOf(q, ns, op, n))
  {
    WalkOfCost(q, ns, op, n);
    PopIsLeast(q, ns, op, bound, n);
    forall v | IsWalk(q, v) && Exact(q, v[|v| - 1])
      ensures ns[n].f <= Cost(q.tiles, v)
    {
      ExactIsNearest(q, ns, op, bound, n, found, best, v);
    }
  }

  /** When no open node is left, `found` is the best partial match or there is none. */
  lemma {:induction false} LastOutcome(q: Query, ns: seq<Node>, op: seq<bool>, bound: int,
                    found: int, best: int, pops: seq<Node>, good: nat)
    requires Progress(q, ns, op, bound, true, found, best, pops, good)
    requires q.fpp.maxSearchDist == -1 ==> CountClosed(op) <= 100
    requires forall i :: 0 <= i < |ns| ==> !op[i]
    ensures Outcome(q, ns, op, found, pops, good, Natural)
  {
    EarlyOutcome(q, ns, op, bound, true, found, best, pops, good);
    if found != NO_NODE { WalkOfCost(q, ns, op, found); }
    forall v | IsWalk(q, v)
      ensures found == NO_NODE ==> !Exact(q, v[|v| - 1]) && !Partial(q, v[|v| - 1])
      ensures found != NO_NODE ==> !Exact(q, v[|v| - 1]) && Worse(q, v, WalkOf(q, ns, op, found))
    {
      AllSeen(q, ns, op, found, best, v);
    }
  }

  /** What holds whenever the loop is left. */
  lemma {:induction false} EarlyOutcome(q: Query, ns: seq<Node>, op: seq<bool>, bound: int, complete: bool,
                     found: int, best: int, pops: seq<Node>, good: nat)
    requires Progress(q, ns, op, bound, complete, found, best, pops, good)
    requires (q.fpp.maxSearchDist == -1 ==> CountClosed(op) <= 100) && (!complete ==> MayRunOut(q))
    ensures MayRunOut(q) ==> Outcome(q, ns, op, found, pops, good, OutOfNodes)
    ensures q.fpp.maxSearchDist == -1 && CountClosed(op) == 100 ==> Outcome(q, ns, op, found, pops, good, CutShort)
    ensures good > 0 ==>
      BestBelow(q, found != NO_NODE, if found == NO_NODE then [] else WalkOf(q, ns, op, found), pops[good - 1].f)
    ensures found != NO_NODE ==> |WalkOf(q, ns, op, found)| <= |pops|
    ensures SoundOrder(q, pops, good) && (found != NO_NODE ==> Partial(q, ns[found].At()))
    ensures found != NO_NODE && good == |pops| ==> NoCheaper(q, ns[found].At(), ns[found].f)
  {
    hide Attained, Sized, Tree, Cost, Layered, Cheap, Closure, BestAnswer, InOrder, WalkOf, SeenBelow, BestBelow,
      Exact, Partial, Candidate, TargetDist, NoCheaper;
    ProgressShape(q, ns, op, bound, complete, found, best, pops, good);
    if found != NO_NODE {
      WalkOfCost(q, ns, op, found);
      WalkFits(q, ns, op, found);
      PartialIsCandidate(q, ns[found].At());
    }
    if good > 0 { FoundBelow(q, ns, op, pops[good - 1].f, found, best); }
    assert good == |pops| ==> pops[..good] == pops;
  }

  lemma {:induction false} PartialIsCandidate(q: Query, p: Pos)
    requires Partial(q, p)
    ensures Candidate(q, p)
  {
  }

  lemma {:induction false} FoundBelow(q: Query, ns: seq<Node>, op: seq<bool>, c: int, found: int, best: int)
    requires Tree(q, ns, op) && Tested(q, ns, op, found, best)
    requires SeenBelow(q, c, found, if found == NO_NODE then ns[0] else ns[found], best)
    ensures found >= NO_NODE && BestBelow(q, found != NO_NODE, if found == NO_NODE then [] else WalkOf(q, ns, op, found), c)
  {
    if found != NO_NODE { WalkOfCost(q, ns, op, found); }
    hide NodeOk, Exact, Partial, TargetDist, IsWalk, Cost, Beaten;
  }

  /** After the pool has run out, and only with something found before, the loop goes on. */
  ghost predicate WentOn(q: Query, pops: seq<Node>, good: nat) {
    exists i :: 0 <= i < good <= |pops| && Candidate(q, pops[i].At())
  }

  lemma {:induction false} StillGoesOn(q: Query, pops: seq<Node>, good: nat, node: Node)
    requires WentOn(q, pops, good)
    ensures WentOn(q, pops + [node], good)
  {
    hide Candidate;
    var i :| 0 <= i < good <= |pops| && Candidate(q, pops[i].At());
    assert (pops + [node])[i] == pops[i];
  }

  lemma {:induction false} GoesOn(q: Query, ns: seq<Node>, op: seq<bool>, bound: int, complete: bool,
                                  found: int, best: int, pops: seq<Node>, good: nat)
    requires Progress(q, ns, op, bound, complete, found, best, pops, good) && found != NO_NODE && good == |pops|
    ensures WentOn(q, pops, good)
  {
    hide Taken, AllLeast, Attained, Sized, Closure, Layered, Searching, Candidate, TargetDist, SeenBelow;
    ProgressShape(q, ns, op, bound, complete, found, best, pops, good);
    FoundPartial(q, ns, op, found, best);
    PartialIsCandidate(q, ns[found].At());
    var i :| 0 <= i < |pops| && pops[i] == ns[found];
  }

  lemma {:induction false} FoundPartial(q: Query, ns: seq<Node>, op: seq<bool>, found: int, best: int)
    requires |ns| == |op| && Tested(q, ns, op, found, best) && found != NO_NODE
    ensures 0 <= found < |ns| && Partial(q, ns[found].At())
  {
    hide Partial, Exact, TargetDist, Beaten;
  }

  lemma {:induction false} AllTaken(op: seq<bool>)
    requires forall i :: 0 <= i < |op| ==> !op[i]
    ensures CountClosed(op) == |op|
  {
    if op != [] { AllTaken(op[..|op| - 1]); }
  }

  /** The rest of a turn that does not end the loop. */
  method ExpandBest(q: Query, pool: Pool, n: nat, ghost bound: int, ghost complete: bool,
                    ghost found: int, ghost best: int, ghost pops: seq<Node>, ghost good: nat)
    returns (ok: bool)
    requires pool.Valid() && Progress(q, pool.Nodes(), pool.Open(), bound, complete, found, best, pops, good)
    requires IsBest(pool.Nodes(), pool.Open(), n)
    requires var (accepted, best') := PathCondition(q, pool.Nodes()[n].At(), best); !(accepted && best' == 0)
    requires q.fpp.maxSearchDist == -1 ==> complete && CountClosed(pool.Open()) < 100
    modifies pool, pool.nodes, pool.openNodes
    ensures pool.Valid()
    ensures var node := old(pool.Nodes()[n]); var (accepted, best') := PathCondition(q, node.At(), best);
      Progress(q, pool.Nodes(), pool.Open(), node.f, complete && ok, if accepted then n else found, best',
               pops + [node], if complete then good + 1 else good)
    ensures (!ok ==> MayRunOut(q) && |pool.Nodes()| == 512) && |old(pool.Nodes())| <= |pool.Nodes()|
  {
    ghost var ns, op := pool.Nodes(), pool.Open();
    PopKeeps(q, ns, op, bound, complete, n);
    ok := Expand(q, pool, n, complete);
    ghost var ns', op' := pool.Nodes(), pool.Open();
    if complete { SizedNext(ns, op, n, ns', op'); }
    if !ok { PoolSuffices(q, ns', op'); }
    NextProgress(q, ns, op, bound, complete, found, best, pops, good, n, ns', op', complete && ok);
  }

  /** A pool holding the open start node only. */
  method StartSearch(q: Query) returns (pool: Pool)
    requires IsPos(q.start)
    ensures pool.Valid() && fresh(pool) && fresh(pool.nodes) && fresh(pool.openNodes)
    ensures Progress(q, pool.Nodes(), pool.Open(), 0, true, NO_NODE, 0, [], 0)
  {
    pool := new Pool();
    var start := pool.CreateOpenNode();
    pool.SetNode(start, Node(q.start.x, q.start.y, NO_NODE, 0, 0, 0));
    InitialProgress(q, pool.Nodes(), pool.Open());
  }

  /** The search loop. */
  method Search(q: Query) returns (pool: Pool, found: int, ghost pops: seq<Node>, ghost good: nat, ghost ending: Ending)
    requires IsPos(q.start)
    ensures pool.Valid() && fresh(pool) && fresh(pool.nodes) && fresh(pool.openNodes)
    ensures Outcome(q, pool.Nodes(), pool.Open(), found, pops, good, ending)
    ensures good < |pops| ==> WentOn(q, pops, good) && found != NO_NODE
    ensures ending == OutOfNodes && found != NO_NODE ==> |pops| == 512 || Exact(q, pool.Nodes()[found].At())
  {
    hide Progress, Outcome, PathCondition, IsBest, CountClosed, Searching, WentOn, Exact;
    pool := StartSearch(q);
    ghost var ns, op := pool.Nodes(), pool.Open();
    var best := 0;
    found := NO_NODE;
    pops, good, ending := [], 0, Natural;
    ghost var bound, complete := 0, true;
    while true
      invariant pool.Valid() && fresh(pool) && fresh(pool.nodes) && fresh(pool.openNodes)
      invariant ns == pool.Nodes() && op == pool.Open()
      invariant Progress(q, ns, op, bound, complete, found, best, pops, good)
      invariant if complete then good == |pops| else
        MayRunOut(q) && |ns| == 512 && found != NO_NODE && WentOn(q, pops, good)
      invariant q.fpp.maxSearchDist == -1 ==> |pops| <= 100
      decreases MAX_NODES - |pops|
    {
      ProgressShape(q, ns, op, bound, complete, found, best, pops, good);
      CountFits(op);
      var closed := pool.CountClosedNodes();
      if q.fpp.maxSearchDist == -1 && closed >= 100 {
        EarlyOutcome(q, ns, op, bound, complete, found, best, pops, good);
        ending := CutShort;
        break;
      }
      var n := pool.GetBestNode();
      if n == NO_NODE {
        ending := if complete then Natural else OutOfNodes;
        if complete {
          LastOutcome(q, ns, op, bound, found, best, pops, good);
        } else {
          EarlyOutcome(q, ns, op, bound, complete, found, best, pops, good);
          AllTaken(op);
        }
        break;
      }
      var (accepted, best') := PathCondition(q, pool.nodes[n].At(), best);
      if accepted && best' == 0 {
        ExactOutcome(q, ns, op, bound, complete, found, best, pops, good, n);
        if !complete { StillGoesOn(q, pops, good, ns[n]); }
        found, pops := n, pops + [ns[n]];
        good, ending := if complete then good + 1 else good, if complete then Natural else OutOfNodes;
        break;
      }
      var sufficed := ExpandBest(q, pool, n, bound, complete, found, best, pops, good);
      if !complete { StillGoesOn(q, pops, good, ns[n]); }
      good, pops, bound := if complete then good + 1 else good, pops + [ns[n]], ns[n].f;
      ns, op, complete := pool.Nodes(), pool.Open(), complete && sufficed;
      found, best := if accepted then n else found, best';
      if found != NO_NODE && good == |pops| { GoesOn(q, ns, op, bound, complete, found, best, pops, good); }
      if !sufficed && found == NO_NODE {
        EarlyOutcome(q, ns, op, bound, complete, found, best, pops, good);
        ending := OutOfNodes;
        break;
      }
    }
  }

  /** Calls whose direction list is sure to lead along the walk: bounded to less than half the coordinates,
      or made farther from where they wrap than the search can get. */
  predicate NeverWraps(q: Query) {
    0 <= q.fpp.maxSearchDist < 32768 || Inland(q.start, if q.fpp.maxSearchDist == -1 then 99 else 511)
  }

  lemma {:induction false} MatchReplays(q: Query, w: seq<Pos>)
    requires IsPos(q.start) && IsWalk(q, w)
    ensures Replay(q.start, DirsOf(w)) == w <==> CrossesNoSeam(w)
    ensures NeverWraps(q) && |w| <= (if q.fpp.maxSearchDist == -1 then 100 else MAX_NODES) ==> CrossesNoSeam(w)
  {
    WalkReplays(q, w);
    WalkLinked(q, w);
    if 0 <= q.fpp.maxSearchDist < 32768 {
      BoundedSearchNeverWraps(q, w);
    } else if NeverWraps(q) && |w| <= (if q.fpp.maxSearchDist == -1 then 100 else MAX_NODES) {
      InlandNeverWraps(w, if q.fpp.maxSearchDist == -1 then 99 else 511);
    }
  }

  /** What a found walk costs, by the entries of its direction list. */
  lemma {:induction false} WalkIsPriced(q: Query, w: seq<Pos>)
    requires IsPos(q.start) && IsWalk(q, w) && CrossesNoSeam(w)
    ensures var dirs := DirsOf(w);
      Cost(q.tiles, w) == 10 * Straights(dirs) + 25 * Diagonals(dirs) + 30 * Creatures(q.tiles, w) + 30 * Fields(q.tiles, w)
  {
    WalkLinked(q, w);
    CostIsPrice(q.tiles, w);
    DirectionsCount(w);
    hide Straights, Diagonals, Straight, Diagonal, Creatures, Fields, Cost;
  }

  lemma {:induction false} OutcomeMeans(q: Query, ns: seq<Node>, op: seq<bool>, found: int, pops: seq<Node>, good: nat, ending: Ending)
    requires Outcome(q, ns, op, found, pops, good, ending)
    ensures SoundOrder(q, pops, good) && good <= |pops| && Tree(q, ns, op) && (found == NO_NODE || 0 <= found < |ns|)
    ensures !MayRunOut(q) ==> good == |pops| && ending != OutOfNodes
    ensures ending == OutOfNodes ==> MayRunOut(q)
    ensures ending == CutShort ==> q.fpp.maxSearchDist == -1 && |pops| == 100
    ensures var w := if found == NO_NODE then [] else WalkOf(q, ns, op, found);
      && (ending == Natural ==> good == |pops| && BestAnswer(q, found != NO_NODE, w))
      && (good > 0 ==> BestBelow(q, found != NO_NODE, w, pops[good - 1].f))
    ensures WentOn(q, pops, good) ==> exists i :: 0 <= i < good && Candidate(q, pops[i].At())
  {
    hide Exact, Candidate, NoCheaper, BestAnswer, BestBelow, Tree, InOrder, AllLeast, Attained, Cost;
  }

  lemma {:induction false} FoundMeans(q: Query, ns: seq<Node>, op: seq<bool>, found: nat, pops: seq<Node>, good: nat, ending: Ending)
    requires IsPos(q.start) && Outcome(q, ns, op, found, pops, good, ending)
    ensures var w := WalkOf(q, ns, op, found);
      && IsWalk(q, w) && Candidate(q, w[|w| - 1]) && w[|w| - 1] == ns[found].At()
      && (Replay(q.start, DirsOf(w)) == w <==> CrossesNoSeam(w))
      && (NeverWraps(q) ==> Replay(q.start, DirsOf(w)) == w)
      && (good == |pops| ==> NoCheaper(q, w[|w| - 1], Cost(q.tiles, w)) && CornersCostly(q, w))
  {
    hide Exact, Candidate, NoCheaper, CornersCostly, BestAnswer, BestBelow, NeverWraps, Cost, CrossesNoSeam, Replay,
      Tree, InOrder, AllLeast, Attained, WalkOf;
    WalkOfCost(q, ns, op, found);
    var w := WalkOf(q, ns, op, found);
    MatchReplays(q, w);
    if good == |pops| { CheapestCorners(q, w); }
  }

  /** `Map::getPathMatching`. Ghost results: the walk behind the directions, the nodes taken from
      `getBestNode` in order, how many of them while the pool had sufficed, and how it ended. */
  method GetPathMatching(q: Query)
    returns (ok: bool, dirs: seq<Direction>,
             ghost w: seq<Pos>, ghost pops: seq<Node>, ghost good: nat, ghost ending: Ending)
    requires IsPos(q.start)
    ensures SoundOrder(q, pops, good)
    // what is returned is the direction list of a walk to a tile the condition accepts
    ensures ok ==> IsWalk(q, w) && Candidate(q, w[|w| - 1]) && dirs == DirsOf(w)
    ensures !ok ==> dirs == []
    // replayed it leads along that walk if and only if no step of it wraps around
    ensures ok ==> (Replay(q.start, dirs) == w <==> CrossesNoSeam(w))
    ensures ok && NeverWraps(q) ==> Replay(q.start, dirs) == w
    // while the pool suffices that walk is a cheapest one to its end
    ensures good == |pops| && ok ==> NoCheaper(q, w[|w| - 1], Cost(q.tiles, w)) && CornersCostly(q, w)
    // its cost is 10 for each straight and 25 for each diagonal direction, 30 for each creature and each field
    ensures ok && CrossesNoSeam(w) ==>
      Cost(q.tiles, w) == 10 * Straights(dirs) + 25 * Diagonals(dirs) + 30 * Creatures(q.tiles, w) + 30 * Fields(q.tiles, w)
    // it suffices but for search distances of 11 and more
    ensures !MayRunOut(q) ==> good == |pops| && ending != OutOfNodes
    // a search that ends on its own gives the best answer there is
    ensures ending == Natural ==> good == |pops| && BestAnswer(q, ok, w)
    ensures ending == OutOfNodes ==> MayRunOut(q)
    // with nothing found it ends when the pool runs out, else it goes on to all 512 nodes or an exact one
    ensures good < |pops| ==> ok && exists i :: 0 <= i < good && Candidate(q, pops[i].At())
    ensures ending == OutOfNodes && ok ==> |pops| == 512 || Exact(q, w[|w| - 1])
    // any other gives the best one as far as walks cost less than the last node taken while the pool sufficed
    ensures good > 0 ==> BestBelow(q, ok, w, pops[good - 1].f)
    ensures ending == CutShort ==> q.fpp.maxSearchDist == -1 && |pops| == 100
  {
    hide *;
    var pool, found;
    pool, found, pops, good, ending := Search(q);
    OutcomeMeans(q, pool.Nodes(), pool.Open(), found, pops, good, ending);
    if found == NO_NODE {
      return false, [], [], pops, good, ending;
    }
    w := WalkOf(q, pool.Nodes(), pool.Open(), found);
    dirs := BuildDirections(q, pool, found);
    ok := true;
    FoundMeans(q, pool.Nodes(), pool.Open(), found, pops, good, ending);
    if CrossesNoSeam(w) { WalkIsPriced(q, w); }
  }

  // ----- a call whose direction list is lost

  lemma {:induction false} SeamIsNotCut(pops: seq<Node>, good: nat)
    requires SoundOrder(SeamQuery(), pops, good)
    ensures |pops| <= 2
  {
    var q := SeamQuery();
    assert |pops| > 2 ==> pops[0].At() != pops[1].At() && pops[0].At() != pops[2].At() && pops[1].At() != pops[2].At();
    forall i | 0 <= i < |pops|
      ensures pops[i].At() == q.start || pops[i].At() == q.target
    {
      var v :| WalkTo(q, v, pops[i].At()) && Cost(q.tiles, v) == pops[i].f;
      WalkEndsEnterable(q, v);
    }
  }

  lemma {:induction false} SeamWalk(w: seq<Pos>)
    requires var q := SeamQuery(); IsWalk(q, w) && Candidate(q, w[|w| - 1]) && NoCheaper(q, w[|w| - 1], Cost(q.tiles, w))
    ensures w == [SeamQuery().start, SeamQuery().target]
  {
    var q := SeamQuery();
    SeamStepIsLost();
    CostPerStep(q, w);
    assert w[|w| - 1] == q.target;
  }

  /** The search finds the tile across the seam, answers yes, and returns no direction at all. */
  method SeamSearch() returns (ok: bool, dirs: seq<Direction>)
    ensures ok && dirs == [] && Replay(SeamQuery().start, dirs) == [SeamQuery().start]
  {
    hide Exact, Candidate, SoundOrder, NoCheaper, IsWalk, Cost;
    var q := SeamQuery();
    SeamStepIsLost();
    ghost var w, pops, good, ending;
    ok, dirs, w, pops, good, ending := GetPathMatching(q);
    SeamIsNotCut(pops, good);
    assert ending == Natural;
    if ok { SeamWalk(w); }
  }
}
