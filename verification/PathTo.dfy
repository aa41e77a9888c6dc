/** The heuristic search `Map::getPathTo` (font/map.cpp). It starts at the destination, may reopen
    closed nodes, and is not claimed to find a cheapest path: a diagonal step is estimated at 25 although
    two straight steps cost 20. */
module PathTo {
  import opened Arithmetic
  import opened AStarNodes
  import opened PathPrice
  import opened PathQuery

  /** `tiles` maps each tile the creature may enter to what makes it costlier. */
  datatype Trip = Trip(from: Pos, to: Pos, sameFloor: bool, tiles: map<Pos, TileInfo>, maxSearchDist: int)

  predicate Enterable(t: Trip, p: Pos) {
    && (t.maxSearchDist != -1 ==> Near(t.from, t.maxSearchDist, p))
    && p in t.tiles
  }

  lemma {:induction false} EnterableMeans(t: Trip, p: Pos)
    ensures Enterable(t, p) <==>
      p in t.tiles && (t.maxSearchDist == -1 || Max(Abs(p.x - t.from.x), Abs(p.y - t.from.y)) <= t.maxSearchDist)
  {
  }

  /** A way back from the destination, each tile after it enterable and in range. */
  predicate IsWayBack(t: Trip, w: seq<Pos>) {
    if |w| <= 1 then w == [t.to]
    else IsWayBack(t, w[..|w| - 1]) && Adjacent(w[|w| - 2], w[|w| - 1]) && Enterable(t, w[|w| - 1])
  }

  /** A path from the creature over enterable tiles to the destination. */
  predicate IsPath(t: Trip, w: seq<Pos>) {
    && Linked(w) && w[0] == t.from && w[|w| - 1] == t.to
    && (forall p :: p in w ==> p in t.tiles)
  }

  // ----- the state of a search

  ghost predicate NodeOk(t: Trip, ns: seq<Node>, i: nat)
    requires i < |ns|
  {
    var n := ns[i];
    && IsPos(n.At()) && 0 <= n.g <= 85 * i
    && n.h == EstimatedDistance(n.At(), t.from) && n.f == n.g + n.h
    && if i == 0 then n.At() == t.to && n.g == 0 && n.parent == NO_NODE
       else
         && 0 <= n.parent < |ns| && ns[n.parent].h < BEST_NODE_LIMIT
         && ns[n.parent].g + StepCost(t.tiles, ns[n.parent].At(), n.At()) <= n.g
         && Adjacent(ns[n.parent].At(), n.At()) && Enterable(t, n.At())
  }

  /** `g` strictly falls along parents, so parent chains end at the destination; parents were below the sentinel. */
  ghost predicate Tree(t: Trip, ns: seq<Node>, op: seq<bool>) {
    && 0 < |ns| == |op| <= MAX_NODES
    && (forall i: nat :: i < |ns| ==> NodeOk(t, ns, i))
    && (forall i, j :: 0 <= i < j < |ns| ==> ns[i].At() != ns[j].At())
  }

  /** `p` is listed at a cost of at most `c`. */
  ghost predicate Reached(ns: seq<Node>, p: Pos, c: int) {
    exists i :: 0 <= i < |ns| && ns[i].At() == p && ns[i].g <= c
  }

  /** Neighbour `d` of node `i`, if it can be entered, is listed at no more than it costs by way of `i`. */
  ghost predicate Seen(t: Trip, ns: seq<Node>, i: nat, d: nat)
    requires i < |ns| && d < 8
  {
    var p := Neighbour(ns[i].At(), d);
    Enterable(t, p) ==> Reached(ns, p, ns[i].g + StepCost(t.tiles, ns[i].At(), p))
  }

  /** Every closed node's neighbours are listed so, node `n`'s up to direction `upto`. */
  ghost predicate Closure(t: Trip, ns: seq<Node>, op: seq<bool>, n: int, upto: nat)
    requires |ns| == |op|
  {
    forall i: nat, d: nat :: i < |ns| && d < 8 && (if i == n then d < upto else !op[i]) ==> Seen(t, ns, i, d)
  }

  function SumG(ns: seq<Node>): int {
    if ns == [] then 0 else SumG(ns[..|ns| - 1]) + ns[|ns| - 1].g
  }

  lemma {:induction false} SumGUpdate(ns: seq<Node>, k: nat, m: Node)
    requires k < |ns|
    ensures SumG(ns[k := m]) == SumG(ns) - ns[k].g + m.g
  {
    var last := |ns| - 1;
    if k == last {
      assert ns[k := m][..last] == ns[..last];
    } else {
      SumGUpdate(ns[..last], k, m);
      assert ns[k := m][..last] == ns[..last][k := m];
    }
  }

  lemma {:induction false} SumGNonnegative(ns: seq<Node>)
    requires forall i :: 0 <= i < |ns| ==> ns[i].g >= 0
    ensures SumG(ns) >= 0
  {
    if ns != [] { SumGNonnegative(ns[..|ns| - 1]); }
  }

  /** What one look at a neighbour does to the list: nothing, one node more, or a smaller sum of `g`. */
  ghost predicate Advances(ns: seq<Node>, op: seq<bool>, ns': seq<Node>, op': seq<bool>) {
    || (ns' == ns && op' == op)
    || |ns'| > |ns|
    || (|ns'| == |ns| && SumG(ns') < SumG(ns))
  }

  /** Only node `n`, if any, is newly closed. */
  ghost predicate ClosesOnly(op: seq<bool>, n: int, op': seq<bool>) {
    forall i :: 0 <= i < |op'| && !op'[i] ==> i == n || (i < |op| && !op[i])
  }

  ghost predicate Extends(ns: seq<Node>, ns': seq<Node>) {
    |ns| <= |ns'| && forall i :: 0 <= i < |ns| ==> ns'[i].At() == ns[i].At() && ns'[i].g <= ns[i].g
  }

  /** Node `m` is written to slot `k` on behalf of node `n` in direction `d`. */
  ghost predicate Writing(t: Trip, ns: seq<Node>, op: seq<bool>, n: nat, d: nat, k: nat, m: Node) {
    && Tree(t, ns, op) && n < |ns| && ns[n].h < BEST_NODE_LIMIT && d < 8 && k <= |ns| && k != n
    && m.At() == Neighbour(ns[n].At(), d) && Enterable(t, m.At())
    && m.parent == n && m.g == ns[n].g + StepCost(t.tiles, ns[n].At(), m.At())
    && m.h == EstimatedDistance(m.At(), t.from) && m.f == m.g + m.h
    && (if k == |ns| then k < MAX_NODES && (forall i :: 0 <= i < |ns| ==> ns[i].At() != m.At())
        else ns[k].At() == m.At() && m.g < ns[k].g)
  }

  lemma {:induction false} WriteKeepsNode(t: Trip, ns: seq<Node>, op: seq<bool>, n: nat, d: nat, k: nat, m: Node, i: nat)
    requires Writing(t, ns, op, n, d, k, m) && i < |Put(ns, k, m)|
    ensures NodeOk(t, Put(ns, k, m), i)
  {
    hide EstimatedDistance, Enterable, Neighbour, StepCost;
    assert NodeOk(t, ns, n) && NodeOk(t, ns, 0);
    if i == k {
      if k < |ns| { assert NodeOk(t, ns, k); }
      assert Adjacent(ns[n].At(), m.At());
    } else {
      hide Adjacent;
      assert NodeOk(t, ns, i);
      if i != 0 { assert NodeOk(t, ns, ns[i].parent); }
    }
  }

  lemma {:induction false} WriteKeepsTree(t: Trip, ns: seq<Node>, op: seq<bool>, n: nat, d: nat, k: nat, m: Node)
    requires Writing(t, ns, op, n, d, k, m)
    ensures Tree(t, Put(ns, k, m), Put(op, k, true)) && Put(ns, k, m)[n] == ns[n]
  {
    hide NodeOk, EstimatedDistance, Enterable, Neighbour;
    var ns' := Put(ns, k, m);
    forall i: nat | i < |ns'|
      ensures NodeOk(t, ns', i)
    {
      WriteKeepsNode(t, ns, op, n, d, k, m, i);
    }
  }

  lemma {:induction false} WriteAdvances(t: Trip, ns: seq<Node>, op: seq<bool>, n: nat, d: nat, k: nat, m: Node)
    requires Writing(t, ns, op, n, d, k, m)
    ensures Advances(ns, op, Put(ns, k, m), Put(op, k, true)) && Extends(ns, Put(ns, k, m))
  {
    if k < |ns| { SumGUpdate(ns, k, m); }
  }

  lemma {:induction false} ClosureGrows(t: Trip, ns: seq<Node>, op: seq<bool>, n: nat, d: nat, ns': seq<Node>, op': seq<bool>)
    requires |ns| == |op| && |ns'| == |op'| && n < |ns| && d < 8 && Closure(t, ns, op, n, d) && Extends(ns, ns')
    requires forall i :: 0 <= i < |ns'| && !op'[i] && i != n ==> i < |ns| && !op[i] && ns'[i].g == ns[i].g
    requires ns'[n].g == ns[n].g && Seen(t, ns', n, d)
    ensures Closure(t, ns', op', n, d + 1)
  {
    forall i: nat, e: nat | i < |ns'| && e < 8 && (if i == n then e < d + 1 else !op'[i])
      ensures Seen(t, ns', i, e)
    {
      if i != n || e != d {
        assert Seen(t, ns, i, e);
        var p := Neighbour(ns[i].At(), e);
        if Enterable(t, p) {
          var c := ns[i].g + StepCost(t.tiles, ns[i].At(), p);
          var j :| 0 <= j < |ns| && ns[j].At() == p && ns[j].g <= c;
          assert ns'[j].At() == p && ns'[j].g <= c;
        }
      }
    }
  }

  lemma {:induction false} TreeShape(t: Trip, ns: seq<Node>, op: seq<bool>, n: nat, d: nat)
    requires Tree(t, ns, op) && n < |ns| && d < 8
    ensures |ns| == |op| && Neighbour(ns[n].At(), d) != ns[n].At()
  {
    assert NodeOk(t, ns, n);
  }

  lemma {:induction false} StepCosts(t: Trip, a: Pos, b: Pos)
    requires b in t.tiles
    ensures StepCost(t.tiles, a, b) == MapWalkCost(a, b) + TileWalkCost(t.tiles[b])
  {
  }

  /** The body of the neighbour loop. False when a node was needed and the pool is used up. */
  method LookAt(t: Trip, pool: Pool, n: nat, d: nat) returns (ok: bool)
    requires pool.Valid() && n < |pool.Nodes()| && pool.Nodes()[n].h < BEST_NODE_LIMIT && d < 8
    requires Tree(t, pool.Nodes(), pool.Open()) && Closure(t, pool.Nodes(), pool.Open(), n, d)
    modifies pool, pool.nodes, pool.openNodes
    ensures pool.Valid() && Extends(old(pool.Nodes()), pool.Nodes())
    ensures Tree(t, pool.Nodes(), pool.Open()) && pool.Nodes()[n] == old(pool.Nodes()[n])
    ensures ok ==> Closure(t, pool.Nodes(), pool.Open(), n, d + 1)
    ensures ok ==> Advances(old(pool.Nodes()), old(pool.Open()), pool.Nodes(), pool.Open())
    ensures ClosesOnly(old(pool.Open()), NO_NODE, pool.Open())
    ensures !ok ==> |pool.Nodes()| == MAX_NODES
  {
    hide Tree, Closure, SumG, EstimatedDistance, MapWalkCost, TileWalkCost, Neighbour, StepCost;
    ghost var ns, op := pool.Nodes(), pool.Open();
    var node := pool.nodes[n];
    var pos := Neighbour(node.At(), d);
    TreeShape(t, ns, op, n, d);
    if !Enterable(t, pos) {
      ClosureGrows(t, ns, op, n, d, ns, op);
      return true;
    }
    var newg := node.g + MapWalkCost(node.At(), pos) + TileWalkCost(t.tiles[pos]);
    StepCosts(t, node.At(), pos);
    var k := pool.GetNodeInList(pos);
    if k != NO_NODE {
      if pool.nodes[k].g <= newg {
        assert Reached(ns, pos, newg);
        ClosureGrows(t, ns, op, n, d, ns, op);
        return true;
      }
      pool.OpenNode(k);
    } else {
      k := pool.CreateOpenNode();
      if k == NO_NODE {
        return false;
      }
    }
    var h := EstimatedDistance(pos, t.from);
    var m := Node(pos.x, pos.y, n, newg + h, newg, h);
    assert node == ns[n] && k != n;
    assert pool.Open() == Put(op, k, true);
    pool.SetNode(k, m);
    assert pool.Nodes() == Put(ns, k, m);
    WriteKeepsTree(t, ns, op, n, d, k, m);
    WriteAdvances(t, ns, op, n, d, k, m);
    assert Put(ns, k, m)[k] == m;
    assert Reached(Put(ns, k, m), pos, newg);
    ClosureGrows(t, ns, op, n, d, pool.Nodes(), pool.Open());
    return true;
  }

  /** The lexicographic measure of the search: unused slots, sum of `g`, nodes not closed. */
  ghost predicate Shrinks(ns: seq<Node>, op: seq<bool>, ns': seq<Node>, op': seq<bool>) {
    || |ns'| > |ns|
    || (|ns'| == |ns| && SumG(ns') < SumG(ns))
    || (|ns'| == |ns| && SumG(ns') == SumG(ns) && CountClosed(op') > CountClosed(op))
  }

  lemma {:induction false} ClosingKeeps(t: Trip, ns: seq<Node>, op: seq<bool>, n: nat)
    requires Tree(t, ns, op) && n < |ns| && Closure(t, ns, op, n, 8)
    ensures Tree(t, ns, op[n := false]) && Closure(t, ns, op[n := false], NO_NODE, 0)
  {
    forall i: nat, d: nat | i < |ns| && d < 8 && !op[n := false][i]
      ensures Seen(t, ns, i, d)
    {
    }
  }

  /** The neighbour loop for one node, ending with `closeNode`. */
  method Expand(t: Trip, pool: Pool, n: nat) returns (ok: bool)
    requires pool.Valid() && n < |pool.Nodes()| && pool.Open()[n] && pool.Nodes()[n].h < BEST_NODE_LIMIT
    requires Tree(t, pool.Nodes(), pool.Open()) && Closure(t, pool.Nodes(), pool.Open(), NO_NODE, 0)
    modifies pool, pool.nodes, pool.openNodes
    ensures pool.Valid() && Tree(t, pool.Nodes(), pool.Open())
    ensures ok ==> Closure(t, pool.Nodes(), pool.Open(), NO_NODE, 0)
    ensures ok ==> Extends(old(pool.Nodes()), pool.Nodes())
    ensures ClosesOnly(old(pool.Open()), if ok then n else NO_NODE, pool.Open())
    ensures ok ==> Shrinks(old(pool.Nodes()), old(pool.Open()), pool.Nodes(), pool.Open())
    ensures !ok ==> |pool.Nodes()| == MAX_NODES
  {
    ghost var ns, op := pool.Nodes(), pool.Open();
    for d := 0 to 8
      invariant pool.Valid() && Extends(ns, pool.Nodes()) && n < |pool.Nodes()| && pool.Nodes()[n].h < BEST_NODE_LIMIT
      invariant Tree(t, pool.Nodes(), pool.Open()) && Closure(t, pool.Nodes(), pool.Open(), n, d)
      invariant Advances(ns, op, pool.Nodes(), pool.Open()) && ClosesOnly(op, NO_NODE, pool.Open())
    {
      var found := LookAt(t, pool, n, d);
      if !found {
        return false;
      }
    }
    ClosingKeeps(t, pool.Nodes(), pool.Open(), n);
    pool.CloseNode(n);
    CountClosedOne(op, n);
    return true;
  }

  lemma {:induction false} CountFewer(op: seq<bool>, op': seq<bool>)
    requires |op| == |op'| && forall i :: 0 <= i < |op| && !op'[i] ==> !op[i]
    ensures CountClosed(op') <= CountClosed(op)
  {
    if op != [] { CountFewer(op[..|op| - 1], op'[..|op| - 1]); }
  }

  /** One more node is closed at most. */
  lemma {:induction false} ClosesOne(op: seq<bool>, n: int, op': seq<bool>)
    requires |op| <= |op'| && ClosesOnly(op, n, op') && NO_NODE <= n < |op| && (n != NO_NODE ==> op[n])
    ensures CountClosed(op') <= CountClosed(op) + if n == NO_NODE then 0 else 1
  {
    var wide := op + seq(|op'| - |op|, i => true);
    CountClosedSame(op, wide);
    if n == NO_NODE {
      CountFewer(wide, op');
    } else {
      CountClosedOne(wide, n);
      CountFewer(wide[n := false], op');
    }
  }

  // ----- what the end of a search means

  /** Tiles the sentinel of `getBestNode` cannot hide, at whatever cost they are reached. */
  predicate Unhidden(t: Trip, p: Pos) {
    EstimatedDistance(p, t.from) < BEST_NODE_LIMIT - if p == t.to then 0 else 85 * 511
  }

  predicate InSight(t: Trip, w: seq<Pos>) { forall p :: p in w ==> Unhidden(t, p) }

  lemma {:induction false} WayBackListed(t: Trip, ns: seq<Node>, op: seq<bool>, w: seq<Pos>)
    requires Tree(t, ns, op) && Closure(t, ns, op, NO_NODE, 0) && IsWayBack(t, w) && InSight(t, w)
    requires forall i :: 0 <= i < |ns| && Unhidden(t, ns[i].At()) ==> !op[i]
    ensures exists i :: 0 <= i < |ns| && ns[i].At() == w[|w| - 1]
  {
    if |w| == 1 {
      assert NodeOk(t, ns, 0);
      assert ns[0].At() == w[0];
    } else {
      assert forall p :: p in w[..|w| - 1] ==> p in w;
      WayBackListed(t, ns, op, w[..|w| - 1]);
      var i: nat :| i < |ns| && ns[i].At() == w[|w| - 2];
      var d: nat :| d < 8 && Neighbour(w[|w| - 2], d) == w[|w| - 1];
      assert Seen(t, ns, i, d);
    }
  }

  /** Searches whose box fits the pool, to destinations the sentinel of `getBestNode` does not hide. */
  predicate Decides(t: Trip) {
    t.maxSearchDist != -1 && t.maxSearchDist <= 10 && EstimatedDistance(t.to, t.from) < 100000
  }

  lemma {:induction false} NearEstimate(p: Pos, q: Pos)
    requires Near(q, 10, p)
    ensures EstimatedDistance(p, q) <= 250
  {
  }

  lemma {:induction false} NothingHidden(t: Trip, ns: seq<Node>, op: seq<bool>)
    requires Tree(t, ns, op) && IsBest(ns, op, NO_NODE)
    ensures forall i :: 0 <= i < |ns| && Unhidden(t, ns[i].At()) ==> !op[i]
  {
    forall i | 0 <= i < |ns| && Unhidden(t, ns[i].At())
      ensures ns[i].f < BEST_NODE_LIMIT
    {
      assert NodeOk(t, ns, i) && NodeOk(t, ns, 0);
    }
  }

  /** A bounded search to a destination that is not hidden hides nothing. */
  lemma {:induction false} NearInSight(t: Trip, w: seq<Pos>)
    requires Decides(t) && IsWayBack(t, w)
    ensures InSight(t, w)
  {
    if |w| > 1 {
      var p := w[|w| - 1];
      NearInSight(t, w[..|w| - 1]);
      NearEstimate(p, t.from);
      assert w == w[..|w| - 1] + [p];
    }
  }

  lemma {:induction false} PoolSuffices(t: Trip, ns: seq<Node>, op: seq<bool>)
    requires Tree(t, ns, op) && |ns| == MAX_NODES
    ensures !Decides(t)
  {
    if Decides(t) {
      var rest := ns[1..];
      forall i | 0 <= i < |rest|
        ensures Near(t.from, 10, rest[i].At())
      {
        assert NodeOk(t, ns, i + 1);
      }
      BoxFits(rest, t.from);
    }
  }

  // ----- the path a node stands for, and back

  /** The positions from node `k` up its parents to the destination. */
  function PathOf(t: Trip, ns: seq<Node>, op: seq<bool>, k: nat): (w: seq<Pos>)
    requires Tree(t, ns, op) && k < |ns|
    ensures |w| > 0 && w[0] == ns[k].At()
    decreases ns[k].g
  {
    assert NodeOk(t, ns, k);
    if k == 0 then [ns[0].At()]
    else
      assert NodeOk(t, ns, ns[k].parent);
      [ns[k].At()] + PathOf(t, ns, op, ns[k].parent)
  }

  lemma {:induction false} WrapBack(n: int, o: int)
    requires 0 <= n < COORDS && -1 <= o <= 1
    ensures Wrap(Wrap(n + o) - o) == n
  {
  }

  /** The direction opposite to `i` in the neighbour order. */
  function Back(i: nat): (b: nat)
    requires i < 8
    ensures b < 8 && NEIGHBOURS[b].0 == -NEIGHBOURS[i].0 && NEIGHBOURS[b].1 == -NEIGHBOURS[i].1
  {
    if i < 4 then (i + 2) % 4 else 4 + (i - 2) % 4
  }

  lemma {:induction false} NeighbourBack(a: Pos, i: nat)
    requires IsPos(a) && i < 8
    ensures Neighbour(Neighbour(a, i), Back(i)) == a
  {
    var dx, dy := NEIGHBOURS[i].0, NEIGHBOURS[i].1;
    assert -1 <= dx <= 1 && -1 <= dy <= 1;
    WrapBack(a.x, dx);
    WrapBack(a.y, dy);
  }

  lemma {:induction false} AdjacentBack(a: Pos, b: Pos)
    requires IsPos(a) && Adjacent(a, b)
    ensures Adjacent(b, a)
  {
    var i: nat :| i < 8 && Neighbour(a, i) == b;
    NeighbourBack(a, i);
  }

  lemma {:induction false} HasWayBack(t: Trip, ns: seq<Node>, op: seq<bool>, k: nat)
    requires Tree(t, ns, op) && k < |ns|
    ensures exists v :: IsWayBack(t, v) && v[|v| - 1] == ns[k].At()
    decreases ns[k].g
  {
    hide Neighbour, Adjacent, Enterable;
    assert NodeOk(t, ns, k);
    if k == 0 {
      assert IsWayBack(t, [t.to]);
    } else {
      var parent := ns[k].parent;
      assert NodeOk(t, ns, parent);
      HasWayBack(t, ns, op, parent);
      var v :| IsWayBack(t, v) && v[|v| - 1] == ns[parent].At();
      assert (v + [ns[k].At()])[..|v|] == v;
      assert IsWayBack(t, v + [ns[k].At()]);
    }
  }

  lemma {:induction false} PathOfIsPath(t: Trip, ns: seq<Node>, op: seq<bool>, k: nat)
    requires Tree(t, ns, op) && k < |ns| && t.to in t.tiles
    ensures var w := PathOf(t, ns, op, k);
      && Linked(w) && w[|w| - 1] == t.to && (forall p :: p in w ==> p in t.tiles)
      && (forall p :: p in w ==> p == t.to || Enterable(t, p))
      && (k == 0 <==> |w| == 1)
    ensures exists v :: IsWayBack(t, v) && v[|v| - 1] == ns[k].At()
    decreases ns[k].g
  {
    hide Neighbour, Adjacent, IsWayBack;
    assert NodeOk(t, ns, k);
    HasWayBack(t, ns, op, k);
    if k != 0 {
      var parent := ns[k].parent;
      assert NodeOk(t, ns, parent);
      PathOfIsPath(t, ns, op, parent);
      AdjacentBack(ns[parent].At(), ns[k].At());
      var w := PathOf(t, ns, op, k);
      assert w[1..] == PathOf(t, ns, op, parent);
    }
  }

  // ----- how dear the answer can be

  /** A way back is searched up to an open node that is listed at no more than the way costs up to there, or to
      its end. */
  lemma {:induction false} WayIsSearched(t: Trip, ns: seq<Node>, op: seq<bool>, v: seq<Pos>) returns (i: int, j: int)
    requires Tree(t, ns, op) && Closure(t, ns, op, NO_NODE, 0) && IsWayBack(t, v)
    ensures 0 <= i < |ns| && 0 <= j < |v| && ns[i].At() == v[j] && ns[i].g <= Cost(t.tiles, v[..j + 1])
    ensures op[i] || j == |v| - 1
  {
    if |v| == 1 {
      i, j := 0, 0;
      assert NodeOk(t, ns, 0) && v[..1] == v;
    } else {
      var u := v[..|v| - 1];
      i, j := WayIsSearched(t, ns, op, u);
      assert u[..j + 1] == v[..j + 1];
      if !op[i] {
        var p := v[|v| - 1];
        var d: nat :| d < 8 && Neighbour(u[j], d) == p;
        assert Seen(t, ns, i, d) && v[..|v|] == v;
        var c := ns[i].g + StepCost(t.tiles, u[j], p);
        i :| 0 <= i < |ns| && ns[i].At() == p && ns[i].g <= c;
        j := j + 1;
      }
    }
  }

  /** Straight and diagonal distance together. */
  function Apart(a: Pos, b: Pos): nat { Abs(a.x - b.x) + Abs(a.y - b.y) }

  /** A step costs at least 10 for each unit it covers. */
  lemma {:induction false} StepCovers(tiles: map<Pos, TileInfo>, a: Pos, b: Pos)
    requires !CrossesSeam(a, b)
    ensures 10 * Apart(a, b) <= StepCost(tiles, a, b)
  {
  }

  /** What is left of a way costs at least 10 for each unit it still has to cover. */
  lemma {:induction false} RestCovers(t: Trip, v: seq<Pos>, j: nat)
    requires j < |v| && CrossesNoSeam(v)
    ensures Cost(t.tiles, v[..j + 1]) + 10 * Apart(v[j], v[|v| - 1]) <= Cost(t.tiles, v)
  {
    if j == |v| - 1 {
      assert v[..|v|] == v;
    } else {
      var u := v[..|v| - 1];
      NoSeamFront(v);
      RestCovers(t, u, j);
      StepCovers(t.tiles, u[|u| - 1], v[|v| - 1]);
      hide StepCost;
      assert u[..j + 1] == v[..j + 1];
    }
  }

  /** The estimate counts 10 along the longer axis and 15 more for each diagonal step; it may exceed what is left by
      a quarter. */
  lemma {:induction false} EstimateIs(p: Pos, q: Pos)
    ensures var dx, dy := Abs(p.x - q.x), Abs(p.y - q.y); EstimatedDistance(p, q) == 10 * Max(dx, dy) + 15 * Min(dx, dy)
    ensures 4 * EstimatedDistance(p, q) <= 50 * Apart(p, q)
  {
  }

  /** The search takes the creature's node before any way back is more than a quarter cheaper. */
  ghost predicate NearlyCheapest(t: Trip, g: int) {
    forall v :: IsWayBack(t, v) && v[|v| - 1] == t.from && CrossesNoSeam(v) ==> 4 * g <= 5 * Cost(t.tiles, v)
  }

  lemma {:induction false} TakenNearlyCheapest(t: Trip, ns: seq<Node>, op: seq<bool>, n: int)
    requires Tree(t, ns, op) && Closure(t, ns, op, NO_NODE, 0) && IsBest(ns, op, n) && n != NO_NODE && ns[n].At() == t.from
    ensures NearlyCheapest(t, ns[n].g)
  {
    forall v | IsWayBack(t, v) && v[|v| - 1] == t.from && CrossesNoSeam(v)
      ensures 4 * ns[n].g <= 5 * Cost(t.tiles, v)
    {
      hide Cost, CrossesNoSeam, IsWayBack;
      var i, j := WayIsSearched(t, ns, op, v);
      RestCovers(t, v, j);
      assert NodeOk(t, ns, i) && NodeOk(t, ns, n);
      EstimateIs(v[j], t.from);
      EstimateIs(t.from, t.from);
      hide EstimatedDistance;
      if j == |v| - 1 { assert i == n; }
    }
  }

  function Backwards(w: seq<Pos>): seq<Pos> { if w == [] then [] else Backwards(w[1..]) + [w[0]] }

  /** The path of a node, read backwards, is a way back that costs no more than its `g`. */
  lemma {:induction false} PathIsPaid(t: Trip, ns: seq<Node>, op: seq<bool>, k: nat)
    requires Tree(t, ns, op) && k < |ns|
    ensures var v := Backwards(PathOf(t, ns, op, k));
      && IsWayBack(t, v) && v[|v| - 1] == ns[k].At() && Cost(t.tiles, v) <= ns[k].g
      && (forall p :: p in v ==> p in PathOf(t, ns, op, k))
    decreases ns[k].g
  {
    assert NodeOk(t, ns, k);
    if k != 0 {
      var parent := ns[k].parent;
      assert NodeOk(t, ns, parent);
      PathIsPaid(t, ns, op, parent);
      var u := Backwards(PathOf(t, ns, op, parent));
      assert PathOf(t, ns, op, k)[1..] == PathOf(t, ns, op, parent);
      assert (u + [ns[k].At()])[..|u|] == u;
    } else {
      assert [ns[0].At()][1..] == [];
    }
  }

  lemma {:induction false} WayBackLinked(t: Trip, v: seq<Pos>)
    requires IsPos(t.to) && IsWayBack(t, v)
    ensures Linked(v) && v[0] == t.to
  {
    if |v| > 1 {
      WayBackLinked(t, v[..|v| - 1]);
      LinkedSnoc(v[..|v| - 1], v[|v| - 1]);
      assert v[..|v| - 1] + [v[|v| - 1]] == v;
    }
  }

  /** By counts of steps and of tiles: the answer costs at most a quarter more than any way back that does not
      wrap. */
  lemma {:induction false} AnswerPrice(t: Trip, ns: seq<Node>, op: seq<bool>, k: nat)
    requires IsPos(t.to) && Tree(t, ns, op) && k < |ns| && ns[k].At() == t.from && NearlyCheapest(t, ns[k].g)
    ensures var b := Backwards(PathOf(t, ns, op, k));
      && IsWayBack(t, b) && b[|b| - 1] == t.from
      && forall v :: IsWayBack(t, v) && v[|v| - 1] == t.from && CrossesNoSeam(v) ==> 4 * Price(t.tiles, b) <= 5 * Price(t.tiles, v)
  {
    hide Price, Cost;
    var b := Backwards(PathOf(t, ns, op, k));
    PathIsPaid(t, ns, op, k);
    PathNear(t, ns, op, k);
    WayBackLinked(t, b);
    LinkedNearby(t.from, 9999, b);
    CostIsPrice(t.tiles, b);
    forall v | IsWayBack(t, v) && v[|v| - 1] == t.from && CrossesNoSeam(v)
      ensures 4 * Price(t.tiles, b) <= 5 * Price(t.tiles, v)
    {
      WayBackLinked(t, v);
      CostIsPrice(t.tiles, v);
    }
  }

  // ----- the search itself

  /** How a search ended: on its own, because the pool ran out, or at the limit on closed nodes. */
  datatype Ending = Natural | OutOfNodes | CutShort

  ghost predicate Outcome(t: Trip, ns: seq<Node>, op: seq<bool>, found: int, ending: Ending) {
    && Tree(t, ns, op) && NO_NODE <= found < |ns|
    && (found != NO_NODE ==> ns[found].At() == t.from && NearlyCheapest(t, ns[found].g))
    && (Decides(t) ==> ending == Natural)
    && (ending == Natural && found == NO_NODE ==> forall w :: IsWayBack(t, w) && InSight(t, w) ==> w[|w| - 1] != t.from)
    && (EstimatedDistance(t.to, t.from) >= BEST_NODE_LIMIT ==> found == NO_NODE)
    && (ending == CutShort ==> t.maxSearchDist == -1)
    && (t.maxSearchDist == -1 ==> CountClosed(op) <= 100 && (ending == CutShort <==> CountClosed(op) == 100))
  }

  lemma {:induction false} StartTree(t: Trip, ns: seq<Node>, op: seq<bool>)
    requires IsPos(t.to) && |ns| == 1 && op == [true]
    requires var h := EstimatedDistance(t.to, t.from); ns[0] == Node(t.to.x, t.to.y, NO_NODE, h, 0, h)
    ensures Tree(t, ns, op) && Closure(t, ns, op, NO_NODE, 0)
  {
  }

  lemma {:induction false} NoWayBack(t: Trip, ns: seq<Node>, op: seq<bool>)
    requires Tree(t, ns, op) && Closure(t, ns, op, NO_NODE, 0) && IsBest(ns, op, NO_NODE)
    requires forall i :: 0 <= i < |ns| && ns[i].At() == t.from ==> op[i]
    ensures forall w :: IsWayBack(t, w) && InSight(t, w) ==> w[|w| - 1] != t.from
  {
    NothingHidden(t, ns, op);
    forall w | IsWayBack(t, w) && InSight(t, w)
      ensures w[|w| - 1] != t.from
    {
      WayBackListed(t, ns, op, w);
    }
  }

  /** A pool holding the open destination node only. */
  method StartSearch(t: Trip) returns (pool: Pool)
    requires IsPos(t.to)
    ensures pool.Valid() && fresh(pool) && fresh(pool.nodes) && fresh(pool.openNodes)
    ensures Tree(t, pool.Nodes(), pool.Open()) && Closure(t, pool.Nodes(), pool.Open(), NO_NODE, 0)
    ensures |pool.Nodes()| == 1 && pool.Open() == [true]
    ensures SumG(pool.Nodes()) == 0
  {
    pool := new Pool();
    var start := pool.CreateOpenNode();
    var h := EstimatedDistance(t.to, t.from);
    pool.SetNode(start, Node(t.to.x, t.to.y, NO_NODE, h, 0, h));
    StartTree(t, pool.Nodes(), pool.Open());
  }

  /** A destination whose estimate reaches the sentinel is never even taken from the pool. */
  lemma {:induction false} FarIsHidden(t: Trip, ns: seq<Node>, op: seq<bool>, n: int)
    requires Tree(t, ns, op) && |ns| == 1 && IsBest(ns, op, n) && n != NO_NODE
    ensures EstimatedDistance(t.to, t.from) < BEST_NODE_LIMIT
  {
    assert NodeOk(t, ns, 0);
  }

  /** Between two turns: the creature's own node, once listed, is still open. */
  ghost predicate Searching(t: Trip, ns: seq<Node>, op: seq<bool>) {
    && Tree(t, ns, op) && Closure(t, ns, op, NO_NODE, 0) && SumG(ns) >= 0
    && (forall i :: 0 <= i < |ns| && ns[i].At() == t.from ==> op[i])
    && (EstimatedDistance(t.to, t.from) >= BEST_NODE_LIMIT ==> |ns| == 1)
  }

  lemma {:induction false} StaysSearching(t: Trip, ns: seq<Node>, op: seq<bool>, n: int, ns': seq<Node>, op': seq<bool>)
    requires Searching(t, ns, op) && IsBest(ns, op, n) && n != NO_NODE && ns[n].At() != t.from
    requires Tree(t, ns', op') && Closure(t, ns', op', NO_NODE, 0) && Extends(ns, ns') && ClosesOnly(op, n, op')
    ensures Searching(t, ns', op')
  {
    if |ns| == 1 { FarIsHidden(t, ns, op, n); }
    forall i: nat | i < |ns'|
      ensures ns'[i].g >= 0
    {
      assert NodeOk(t, ns', i);
    }
    SumGNonnegative(ns');
  }

  /** The search loop. It ends although closed nodes may be opened again: each turn adds a node,
      lowers the sum of `g`, or closes a node. */
  method Search(t: Trip) returns (pool: Pool, found: int, ghost ending: Ending)
    requires IsPos(t.to)
    ensures pool.Valid() && fresh(pool) && fresh(pool.nodes) && fresh(pool.openNodes)
    ensures Outcome(t, pool.Nodes(), pool.Open(), found, ending)
  {
    pool := StartSearch(t);
    ghost var ns, op := pool.Nodes(), pool.Open();
    found, ending := NO_NODE, Natural;
    while true
      invariant pool.Valid() && fresh(pool) && fresh(pool.nodes) && fresh(pool.openNodes)
      invariant ns == pool.Nodes() && op == pool.Open() && Searching(t, ns, op)
      invariant t.maxSearchDist == -1 ==> CountClosed(op) <= 100
      decreases MAX_NODES - |ns|, SumG(ns), MAX_NODES - CountClosed(op)
    {
      var closed := pool.CountClosedNodes();
      if t.maxSearchDist == -1 && closed >= 100 {
        ending := CutShort;
        break;
      }
      var n := pool.GetBestNode();
      if n == NO_NODE {
        NoWayBack(t, ns, op);
        break;
      }
      if |ns| == 1 { FarIsHidden(t, ns, op, n); }
      if pool.nodes[n].At() == t.from {
        TakenNearlyCheapest(t, ns, op, n);
        found := n;
        break;
      }
      assert ns[n].h < BEST_NODE_LIMIT by { assert NodeOk(t, ns, n); }
      var sufficed := Expand(t, pool, n);
      ClosesOne(op, if sufficed then n else NO_NODE, pool.Open());
      if !sufficed {
        PoolSuffices(t, pool.Nodes(), pool.Open());
        ending := OutOfNodes;
        break;
      }
      StaysSearching(t, ns, op, n, pool.Nodes(), pool.Open());
      ns, op := pool.Nodes(), pool.Open();
    }
  }

  // ----- the answer

  lemma {:induction false} EstimateAtLeast(p: Pos, q: Pos)
    ensures EstimatedDistance(p, q) >= 10 * Abs(p.x - q.x) && EstimatedDistance(p, q) >= 10 * Abs(p.y - q.y)
  {
  }

  /** Only nodes below the sentinel become parents, so a path keeps within 9999 tiles of the creature. */
  lemma {:induction false} PathNear(t: Trip, ns: seq<Node>, op: seq<bool>, k: nat)
    requires Tree(t, ns, op) && k < |ns| && (ns[k].At() == t.from || ns[k].h < BEST_NODE_LIMIT)
    ensures forall p :: p in PathOf(t, ns, op, k) ==> Near(t.from, 9999, p)
    decreases ns[k].g
  {
    assert NodeOk(t, ns, k);
    EstimateAtLeast(ns[k].At(), t.from);
    if k != 0 {
      assert NodeOk(t, ns, ns[k].parent);
      PathNear(t, ns, op, ns[k].parent);
    }
  }

  /** Whatever the search distance, no step of a path wraps around, so its directions lead back along it. */
  lemma {:induction false} PathReplays(t: Trip, ns: seq<Node>, op: seq<bool>, k: nat)
    requires Tree(t, ns, op) && k < |ns| && ns[k].At() == t.from && t.to in t.tiles
    ensures var w := PathOf(t, ns, op, k); Replay(t.from, DirsOf(w)) == w
  {
    var w := PathOf(t, ns, op, k);
    PathOfIsPath(t, ns, op, k);
    PathNear(t, ns, op, k);
    LinkedNearby(t.from, 9999, w);
    ReplayDirs(w);
  }

  lemma {:induction false} PathUp(t: Trip, ns: seq<Node>, op: seq<bool>, k: nat)
    requires Tree(t, ns, op) && k < |ns|
    ensures var up := ns[k].parent;
      && NO_NODE <= up < |ns| && (up != NO_NODE ==> 0 <= ns[up].g < ns[k].g)
      && PathOf(t, ns, op, k) == [ns[k].At()] + if up == NO_NODE then [] else PathOf(t, ns, op, up)
    ensures ns[k].g >= 0
  {
    assert NodeOk(t, ns, k);
    if k != 0 { assert NodeOk(t, ns, ns[k].parent); }
  }

  /** Follows the parents from the creature's node, pushing directions at the back. */
  method BuildDirections(t: Trip, pool: Pool, found: nat) returns (dirs: seq<Direction>)
    requires pool.Valid() && found < |pool.Nodes()| && Tree(t, pool.Nodes(), pool.Open())
    requires pool.Nodes()[found].At() == t.from
    ensures dirs == DirsOf(PathOf(t, pool.Nodes(), pool.Open(), found))
  {
    hide Tree, NodeOk, PathOf;
    ghost var ns, op := pool.Nodes(), pool.Open();
    ghost var w := PathOf(t, ns, op, found);
    var prev, k := t.from, found;
    dirs := [];
    assert DirsOf([prev] + w) == DirStep(prev, w[0]) + DirsOf(w) by { assert ([prev] + w)[1..] == w; }
    while k != NO_NODE
      invariant NO_NODE <= k < |ns|
      invariant DirsOf(w) == dirs + DirsOf([prev] + if k == NO_NODE then [] else PathOf(t, ns, op, k))
      decreases if k == NO_NODE then -1 else ns[k].g
    {
      PathUp(t, ns, op, k);
      var pos := pool.nodes[k].At();
      ghost var rest := PathOf(t, ns, op, k);
      assert ([prev] + rest)[1..] == rest;
      dirs := dirs + DirStep(prev, pos);
      k := pool.nodes[k].parent;
      prev := pos;
    }
  }

  /** `Map::getPathTo`. `listDir` is the caller's list, which an unwalkable destination leaves as it was.
      Ghost results: the path behind the directions, how the search ended, and how many nodes were closed then. */
  method GetPathTo(t: Trip, listDir: seq<Direction>)
    returns (ok: bool, dirs: seq<Direction>, ghost w: seq<Pos>, ghost ending: Ending, ghost closed: nat)
    requires IsPos(t.from) && IsPos(t.to)
    ensures t.to !in t.tiles ==> !ok && dirs == listDir
    ensures t.to in t.tiles ==> ok == (dirs != [])
    // a returned list is that of a path over enterable tiles to the destination
    ensures ok ==> IsPath(t, w) && dirs == DirsOf(w)
    // counted from the destination, that path costs at most a quarter more than any way that does not wrap
    ensures ok ==> var b := Backwards(w);
      && IsWayBack(t, b) && b[|b| - 1] == t.from
      && forall v :: IsWayBack(t, v) && v[|v| - 1] == t.from && CrossesNoSeam(v) ==> 4 * Price(t.tiles, b) <= 5 * Price(t.tiles, v)
    // replayed from the creature it leads along that path
    ensures ok ==> Replay(t.from, dirs) == w
    ensures ok ==> exists v :: IsWayBack(t, v) && v[|v| - 1] == t.from
    // a search that ends on its own without an answer leaves no way but past tiles the sentinel hides
    ensures t.sameFloor && t.to in t.tiles && t.from != t.to && ending == Natural && !ok ==>
      forall v :: IsWayBack(t, v) && InSight(t, v) ==> v[|v| - 1] != t.from
    // within the pool's reach the answer is a decision
    ensures Decides(t) ==>
      (ok <==> t.sameFloor && t.to in t.tiles && t.from != t.to && exists v :: IsWayBack(t, v) && v[|v| - 1] == t.from)
    // a destination estimated at 100000 or more is never found, 10 for each step and 15 more for each diagonal one
    ensures var dx, dy := Abs(t.to.x - t.from.x), Abs(t.to.y - t.from.y); 10 * Max(dx, dy) + 15 * Min(dx, dy) >= 100000 ==> !ok
    // only a search without a distance is cut short, and that exactly when 100 nodes are closed
    ensures ending == CutShort ==> t.maxSearchDist == -1
    ensures t.maxSearchDist == -1 ==> closed <= 100 && (ending == CutShort <==> closed == 100)
  {
    w, ending, closed := [], Natural, 0;
    EstimateIs(t.to, t.from);
    if t.to !in t.tiles {
      return false, listDir, w, ending, closed;
    }
    if !t.sameFloor {
      return false, [], w, ending, closed;
    }
    var pool, found;
    pool, found, ending := Search(t);
    closed := CountClosed(pool.Open());
    if found == NO_NODE {
      if Decides(t) {
        forall v | IsWayBack(t, v) { NearInSight(t, v); }
      }
      return false, [], w, ending, closed;
    }
    ghost var ns, op := pool.Nodes(), pool.Open();
    dirs := BuildDirections(t, pool, found);
    ok := dirs != [];
    w := PathOf(t, ns, op, found);
    PathOfIsPath(t, ns, op, found);
    PathReplays(t, ns, op, found);
    AnswerPrice(t, ns, op, found);
    assert NodeOk(t, ns, 0);
  }

  // ----- a trip that is refused

  /** From (0, 5) to (65535, 5), one tile away across the seam, with both tiles enterable. */
  function SeamTrip(): Trip {
    var free := TileInfo(false, false);
    Trip(Pos(0, 5), Pos(65535, 5), true, map[Pos(0, 5) := free, Pos(65535, 5) := free], 1)
  }

  /** There is a way, and the answer is no. */
  method SeamTripIsRefused() returns (ok: bool)
    ensures !ok && var t := SeamTrip(); IsWayBack(t, [t.to, t.from])
  {
    var t := SeamTrip();
    assert Neighbour(t.to, 2) == t.from && [t.to, t.from][..1] == [t.to];
    var dirs;
    ghost var w, ending, closed;
    ok, dirs, w, ending, closed := GetPathTo(t, []);
  }
}
