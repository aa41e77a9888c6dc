/** The fixed pool of search nodes shared by both path searches (font/map.cpp, `AStarNodes`).
    The original keeps an array of 512 structs whose parent pointers point back into the same
    array; here a parent is the index of the node it points to, and NO_NODE is the null pointer. */
module AStarNodes {
  import opened Arithmetic

  const MAX_NODES: nat := 512
  const NORMAL_WALK_COST: nat := 10
  const DIAGONAL_WALK_COST: nat := 25
  const BEST_NODE_LIMIT: int := 100000
  const NO_NODE: int := -1

  datatype Pos = Pos(x: int, y: int)

  datatype Node = Node(x: int, y: int, parent: int, f: int, g: int, h: int) {
    function At(): Pos { Pos(x, y) }
  }

  /** What `getTileWalkCost` looks at on a tile the creature may enter. */
  datatype TileInfo = TileInfo(hasCreatures: bool, harmfulField: bool)

  datatype Direction = North | East | South | West | Southwest | Southeast | Northwest | Northeast

  /** Coordinates are `uint16_t`, so a neighbour of a border tile wraps around. */
  function Wrap(n: int): nat { n % COORDS }

  predicate IsPos(p: Pos) { 0 <= p.x < COORDS && 0 <= p.y < COORDS }

  /** The eight offsets of `neighbourOrderList`, straight ones first. */
  const NEIGHBOURS: seq<(int, int)> :=
    [(-1, 0), (0, 1), (1, 0), (0, -1), (-1, -1), (1, -1), (1, 1), (-1, 1)]

  function Neighbour(p: Pos, i: nat): (n: Pos)
    requires i < 8
    ensures IsPos(n)
    ensures IsPos(p) ==> n != p
  {
    Pos(Wrap(p.x + NEIGHBOURS[i].0), Wrap(p.y + NEIGHBOURS[i].1))
  }

  function MapWalkCost(a: Pos, b: Pos): nat {
    if Abs(a.x - b.x) == Abs(a.y - b.y) then DIAGONAL_WALK_COST else NORMAL_WALK_COST
  }

  function TileWalkCost(t: TileInfo): nat {
    (if t.hasCreatures then NORMAL_WALK_COST * 3 else 0) + (if t.harmfulField then NORMAL_WALK_COST * 3 else 0)
  }

  function EstimatedDistance(p: Pos, goal: Pos): nat {
    var dx, dy := Abs(p.x - goal.x), Abs(p.y - goal.y);
    var diagonal := Min(dx, dy);
    DIAGONAL_WALK_COST * diagonal + NORMAL_WALK_COST * (dx + dy - 2 * diagonal)
  }

  predicate Near(c: Pos, r: int, p: Pos) {
    Abs(c.x - p.x) <= r && Abs(c.y - p.y) <= r
  }

  lemma {:induction false} Pigeonhole(s: seq<nat>, n: nat)
    requires forall i :: 0 <= i < |s| ==> s[i] < n
    requires forall i, j :: 0 <= i < j < |s| ==> s[i] != s[j]
    ensures |s| <= n
  {
    if s != [] {
      if k :| 0 <= k < |s| && s[k] == n - 1 {
        Pigeonhole(s[..k] + s[k + 1..], n - 1);
      } else {
        assert s[0] < n;
        Pigeonhole(s, n - 1);
      }
    }
  }

  /** Number of a position within the 21 by 21 box around `c`. */
  function BoxIndex(c: Pos, p: Pos): int { (p.x - c.x + 10) * 21 + (p.y - c.y + 10) }

  /** Distinct positions at most 10 away number at most 21 times 21, which fits the pool. */
  lemma {:induction false} BoxFits(ns: seq<Node>, c: Pos)
    requires forall i :: 0 <= i < |ns| ==> Near(c, 10, ns[i].At())
    requires forall i, j :: 0 <= i < j < |ns| ==> ns[i].At() != ns[j].At()
    ensures |ns| <= 441 < MAX_NODES - 1
  {
    var s: seq<nat> := seq(|ns|, i requires 0 <= i < |ns| => BoxIndex(c, ns[i].At()));
    forall i, j | 0 <= i < j < |s|
      ensures s[i] != s[j]
    {
      assert ns[i].At() != ns[j].At();
    }
    Pigeonhole(s, 441);
  }

  /** Index of the first node at `p`, or NO_NODE. */
  function IndexOf(ns: seq<Node>, p: Pos): (k: int)
    ensures k == NO_NODE || 0 <= k < |ns|
    ensures k == NO_NODE ==> forall i :: 0 <= i < |ns| ==> ns[i].At() != p
    ensures k != NO_NODE ==> ns[k].At() == p && forall i :: 0 <= i < k ==> ns[i].At() != p
  {
    if ns == [] then NO_NODE
    else if ns[0].At() == p then 0
    else
      var r := IndexOf(ns[1..], p);
      if r == NO_NODE then NO_NODE else r + 1
  }

  function CountClosed(op: seq<bool>): (c: nat)
    ensures c <= |op|
    ensures c == |op| ==> forall i :: 0 <= i < |op| ==> !op[i]
  {
    if op == [] then 0
    else
      CountClosed(op[..|op| - 1]) + if op[|op| - 1] then 0 else 1
  }

  lemma {:induction false} CountClosedSame(a: seq<bool>, b: seq<bool>)
    requires |a| <= |b|
    requires forall i :: 0 <= i < |a| ==> a[i] == b[i]
    requires forall i :: |a| <= i < |b| ==> b[i]
    ensures CountClosed(a) == CountClosed(b)
  {
    if b != [] {
      if |a| == |b| {
        CountClosedSame(a[..|a| - 1], b[..|b| - 1]);
      } else {
        CountClosedSame(a, b[..|b| - 1]);
      }
    }
  }

  lemma {:induction false} CountClosedOne(op: seq<bool>, n: nat)
    requires n < |op| && op[n]
    ensures CountClosed(op[n := false]) == CountClosed(op) + 1
  {
    var last := |op| - 1;
    if n == last {
      assert op[n := false][..last] == op[..last];
    } else {
      CountClosedOne(op[..last], n);
      assert op[n := false][..last] == op[..last][n := false];
    }
  }

  /** The node list after node `k` is created or overwritten. */
  function Put<T>(s: seq<T>, k: nat, x: T): (r: seq<T>)
    requires k <= |s|
  {
    if k == |s| then s + [x] else s[k := x]
  }

  /** `k` is what `getBestNode` answers: the first open node of least `f`, if that is below the limit. */
  ghost predicate IsBest(ns: seq<Node>, op: seq<bool>, k: int)
    requires |ns| == |op|
  {
    if k == NO_NODE then
      forall i :: 0 <= i < |ns| && op[i] ==> ns[i].f >= 100000
    else
      && 0 <= k < |ns| && op[k] && ns[k].f < 100000
      && (forall i :: 0 <= i < |ns| && op[i] ==> ns[k].f <= ns[i].f)
      && (forall i :: 0 <= i < k && op[i] ==> ns[k].f < ns[i].f)
  }

  class Pool {
    const nodes: array<Node>
    const openNodes: array<bool>
    var curNode: nat

    ghost predicate Valid()
      reads this
    {
      nodes.Length == openNodes.Length == 512 && curNode <= 512
    }

    /** The nodes in use, and which of them are open. */
    ghost function Nodes(): (ns: seq<Node>)
      requires Valid()
      reads this, nodes
    {
      nodes[..curNode]
    }

    ghost function Open(): (op: seq<bool>)
      requires Valid()
      reads this, openNodes
    {
      openNodes[..curNode]
    }

    constructor ()
      ensures Valid() && fresh(nodes) && fresh(openNodes)
      ensures Nodes() == [] && Open() == []
    {
      nodes := new Node[MAX_NODES](_ => Node(0, 0, NO_NODE, 0, 0, 0));
      openNodes := new bool[MAX_NODES](_ => false);
      curNode := 0;
    }

    /** Takes the next pool slot and marks it open; NO_NODE when the pool is used up. */
    method CreateOpenNode() returns (k: int)
      requires Valid()
      modifies this`curNode, openNodes
      ensures Valid()
      ensures (k == NO_NODE) == (old(curNode) == 512)
      ensures k == NO_NODE ==> Nodes() == old(Nodes()) && Open() == old(Open())
      ensures k != NO_NODE ==> k == |old(Nodes())| && |Nodes()| == k + 1 && Nodes()[..k] == old(Nodes())
      ensures k != NO_NODE ==> Open() == old(Open()) + [true]
    {
      if curNode >= MAX_NODES {
        return NO_NODE;
      }
      k := curNode;
      curNode := curNode + 1;
      openNodes[k] := true;
    }

    method SetNode(k: nat, n: Node)
      requires Valid() && k < curNode
      modifies nodes
      ensures Nodes() == old(Nodes())[k := n]
    {
      nodes[k] := n;
    }

    method GetBestNode() returns (k: int)
      requires Valid()
      ensures IsBest(Nodes(), Open(), k)
    {
      var best_f := BEST_NODE_LIMIT;
      k := NO_NODE;
      for i := 0 to curNode
        invariant k == NO_NODE || 0 <= k < i
        invariant k == NO_NODE ==> best_f == BEST_NODE_LIMIT
        invariant k != NO_NODE ==> openNodes[k] && nodes[k].f == best_f < BEST_NODE_LIMIT
        invariant forall j :: 0 <= j < i && openNodes[j] ==> best_f <= nodes[j].f
        invariant k != NO_NODE ==> forall j :: 0 <= j < k && openNodes[j] ==> best_f < nodes[j].f
      {
        if nodes[i].f < best_f && openNodes[i] {
          best_f, k := nodes[i].f, i;
        }
      }
    }

    method CloseNode(k: nat)
      requires Valid() && k < curNode
      modifies openNodes
      ensures Open() == old(Open())[k := false]
    {
      openNodes[k] := false;
    }

    method OpenNode(k: nat)
      requires Valid() && k < curNode
      modifies openNodes
      ensures Open() == old(Open())[k := true]
    {
      openNodes[k] := true;
    }

    method CountClosedNodes() returns (c: nat)
      requires Valid()
      ensures c == CountClosed(Open())
    {
      c := 0;
      for i := 0 to curNode
        invariant c == CountClosed(openNodes[..i])
      {
        assert openNodes[..i + 1][..i] == openNodes[..i];
        if !openNodes[i] {
          c := c + 1;
        }
      }
    }

    method GetNodeInList(p: Pos) returns (k: int)
      requires Valid()
      ensures k == IndexOf(Nodes(), p)
    {
      for i := 0 to curNode
        invariant forall j :: 0 <= j < i ==> nodes[j].At() != p
      {
        if nodes[i].At() == p {
          assert Nodes()[i].At() == p;
          return i;
        }
      }
      return NO_NODE;
    }
  }
}
