/** The quadtree that holds the world map (font/map.cpp, font/map.h): nodes are created on the way down,
    leaves carry links to their east and south neighbours. */
module QuadTree {
  import opened Arithmetic
  import opened Prefix

  const MAP_MAX_LAYERS: nat := 16

  datatype Option<+T> = None | Some(value: T)

  datatype Spot = Spot(x: nat, y: nat, z: nat) {
    predicate OnMap() { x < COORDS && y < COORDS && z < MAP_MAX_LAYERS }
  }

  class Tile {
    var qtNode: QTreeNode?
  }

  class Creature {
    var pos: Spot
    constructor (p: Spot)
      ensures pos == p
    {
      pos := p;
    }
  }

  /** The leaf that covers a position, and the places of its neighbours; coordinates wrap around. */
  function LeafKey(x: nat, y: nat): Key {
    Key(TREE_DEPTH, x / FLOOR_SIZE, y / FLOOR_SIZE)
  }

  const BLOCKS: nat := COORDS / FLOOR_SIZE

  /** Block numbers one up and one down, modulo the number of blocks. */
  function Next(n: nat): nat { if n + 1 == BLOCKS then 0 else n + 1 }
  function Prev(n: nat): nat { if n == 0 then BLOCKS - 1 else n - 1 }

  function East(k: Key): Key { k.(px := Next(k.px)) }
  function South(k: Key): Key { k.(py := Next(k.py)) }
  function West(k: Key): Key { k.(px := Prev(k.px)) }
  function North(k: Key): Key { k.(py := Prev(k.py)) }

  predicate IsLeafKey(k: Key) { k.d == TREE_DEPTH && k.px < BLOCKS && k.py < BLOCKS }

  /** `x - FLOOR_SIZE` of a 16-bit coordinate, passed on as `uint32_t`. */
  function Minus(x: nat): nat
    requires x < COORDS
  {
    if x >= FLOOR_SIZE then x - FLOOR_SIZE else TWO_32 + x - FLOOR_SIZE
  }

  /** Eight positions on is one block on, modulo the number of blocks. */
  lemma {:induction false} BlockUp(x: nat)
    requires x < COORDS
    ensures (x + FLOOR_SIZE) % COORDS / FLOOR_SIZE == Next(x / FLOOR_SIZE)
  {
    var q, r := x / FLOOR_SIZE, x % FLOOR_SIZE;
    if q + 1 == BLOCKS {
      DivUnique(x + FLOOR_SIZE, COORDS, 1, r);
    } else {
      DivUnique(x + FLOOR_SIZE, COORDS, 0, x + FLOOR_SIZE);
      DivUnique(x + FLOOR_SIZE, FLOOR_SIZE, q + 1, r);
    }
  }

  lemma {:induction false} BlockDown(x: nat)
    requires x < COORDS
    ensures Minus(x) % COORDS / FLOOR_SIZE == Prev(x / FLOOR_SIZE)
  {
    var q, r := x / FLOOR_SIZE, x % FLOOR_SIZE;
    if q == 0 {
      var low := COORDS + x - FLOOR_SIZE;
      DivUnique(Minus(x), COORDS, COORDS - 1, low);
      DivUnique(low, FLOOR_SIZE, BLOCKS - 1, r);
    } else {
      DivUnique(Minus(x), COORDS, 0, x - FLOOR_SIZE);
      DivUnique(x - FLOOR_SIZE, FLOOR_SIZE, q - 1, r);
    }
  }

  lemma {:induction false} BlocksAround(x: nat)
    requires x < COORDS
    ensures Leading(x, TREE_DEPTH) == x / FLOOR_SIZE < BLOCKS
    ensures Leading(x + FLOOR_SIZE, TREE_DEPTH) == Next(x / FLOOR_SIZE)
    ensures Leading(Minus(x), TREE_DEPTH) == Prev(x / FLOOR_SIZE)
  {
    hide Leading;
    LeafBlock(x);
    LeafBlock(x + FLOOR_SIZE);
    LeafBlock(Minus(x));
    BlockUp(x);
    BlockDown(x);
    DivUnique(x, COORDS, 0, x);
  }

  lemma {:induction false} KeysAround(x: nat, y: nat)
    requires x < COORDS && y < COORDS
    ensures var k := KeyOf(x, y, TREE_DEPTH);
      && k == LeafKey(x, y) && IsLeafKey(k)
      && KeyOf(x + FLOOR_SIZE, y, TREE_DEPTH) == East(k) && KeyOf(x, y + FLOOR_SIZE, TREE_DEPTH) == South(k)
      && KeyOf(Minus(x), y, TREE_DEPTH) == West(k) && KeyOf(x, Minus(y), TREE_DEPTH) == North(k)
  {
    BlocksAround(x);
    BlocksAround(y);
  }

  lemma {:induction false} NeighboursInverse(k: Key, j: Key)
    requires IsLeafKey(k) && IsLeafKey(j)
    ensures East(k) == j <==> k == West(j)
    ensures South(k) == j <==> k == North(j)
    ensures IsLeafKey(East(k)) && IsLeafKey(South(k)) && IsLeafKey(West(k)) && IsLeafKey(North(k))
    ensures East(k) != k && South(k) != k
  {
  }

  /** An 8 by 8 block of tiles; owned by one leaf, so kept as a value. */
  type Floor = seq<seq<Tile?>>

  ghost predicate FloorShape(f: Floor) {
    |f| == FLOOR_SIZE && forall i :: 0 <= i < FLOOR_SIZE ==> |f[i]| == FLOOR_SIZE
  }

  function EmptyFloor(): (f: Floor)
    ensures FloorShape(f) && forall i, j :: 0 <= i < FLOOR_SIZE && 0 <= j < FLOOR_SIZE ==> f[i][j] == null
  {
    seq(FLOOR_SIZE, i => seq(FLOOR_SIZE, j => null))
  }

  lemma {:induction false} SwapAndPop(s: seq<Creature>, i: nat)
    requires i < |s|
    ensures multiset(s[i := s[|s| - 1]][|s| - 1 := s[i]][..|s| - 1]) == multiset(s) - multiset{s[i]}
  {
    var t := s[i := s[|s| - 1]][|s| - 1 := s[i]];
    assert t == t[..|s| - 1] + [s[i]];
    assert multiset(t) == multiset(s);
  }

  ghost predicate FloorsOk(floors: seq<Option<Floor>>) {
    && |floors| == MAP_MAX_LAYERS
    && forall z :: 0 <= z < MAP_MAX_LAYERS && floors[z].Some? ==> FloorShape(floors[z].value)
  }

  /** The tile a leaf keeps for a position it covers. */
  function TileIn(floors: seq<Option<Floor>>, p: Spot): Tile?
    requires FloorsOk(floors) && p.z < MAP_MAX_LAYERS
  {
    if floors[p.z].Some? then floors[p.z].value[p.x % FLOOR_SIZE][p.y % FLOOR_SIZE] else null
  }

  /** `createFloor` and the store that follows it, for an empty place. */
  function PutIn(floors: seq<Option<Floor>>, p: Spot, t: Tile): (r: seq<Option<Floor>>)
    requires FloorsOk(floors) && p.z < MAP_MAX_LAYERS
  {
    var f := if floors[p.z].Some? then floors[p.z].value else EmptyFloor();
    var i, j := p.x % FLOOR_SIZE, p.y % FLOOR_SIZE;
    floors[p.z := Some(f[i := f[i][j := t]])]
  }

  /** Storing changes what is kept for that position only, among those the leaf covers. */
  lemma {:induction false} PutInMeaning(floors: seq<Option<Floor>>, p: Spot, t: Tile, o: Spot)
    requires FloorsOk(floors) && p.z < MAP_MAX_LAYERS && o.z < MAP_MAX_LAYERS
    requires LeafKey(p.x, p.y) == LeafKey(o.x, o.y)
    ensures FloorsOk(PutIn(floors, p, t))
    ensures TileIn(PutIn(floors, p, t), o) == if o == p then t else TileIn(floors, o)
  {
    assert p.x % FLOOR_SIZE == o.x % FLOOR_SIZE <==> p.x == o.x;
    assert p.y % FLOOR_SIZE == o.y % FLOOR_SIZE <==> p.y == o.y;
  }

  /** `QTreeNode` and, when `isLeaf`, the fields of `QTreeLeafNode`. */
  class QTreeNode {
    const isLeaf: bool
    ghost const key: Key  // where in the tree the node hangs
    var child: seq<QTreeNode?>
    var leafS: QTreeNode?
    var leafE: QTreeNode?
    var floors: seq<Option<Floor>>
    var creatures: seq<Creature>

    ghost predicate Shape()
      reads this
    {
      |child| == 4 && FloorsOk(floors)
    }

    ghost predicate Blank()
      reads this
    {
      && leafS == null && leafE == null && creatures == []
      && floors == seq(MAP_MAX_LAYERS, z => None)
    }

    constructor (leaf: bool, ghost k: Key)
      ensures isLeaf == leaf && key == k && Blank() && Shape() && child == [null, null, null, null]
    {
      isLeaf, key := leaf, k;
      child := [null, null, null, null];
      leafS, leafE, creatures := null, null, [];
      floors := seq(MAP_MAX_LAYERS, z => None);
    }

    /** `QTreeLeafNode::addCreature`. */
    method AddCreature(c: Creature)
      modifies this`creatures
      ensures creatures == old(creatures) + [c]
    {
      creatures := creatures + [c];
    }

    /** `QTreeLeafNode::removeCreature`: the last creature takes the place of the removed one. */
    method RemoveCreature(c: Creature)
      requires c in creatures
      modifies this`creatures
      ensures multiset(creatures) == multiset(old(creatures)) - multiset{c}
    {
      var i := 0;
      while creatures[i] != c
        invariant i < |creatures| && c in creatures[i..]
        decreases |creatures| - i
      {
        i := i + 1;
      }
      var last := |creatures| - 1;
      SwapAndPop(creatures, i);
      creatures := creatures[i := creatures[last]][last := c];
      creatures := creatures[..last];
    }

    /** `QTreeNode::getLeaf`, the recursive lookup. Ghost arguments: the map, the place of this node in
        it, and the coordinates asked for, of which `x` and `y` are what remains. */
    method GetLeaf(x: nat, y: nat, ghost m: Map, ghost k: Key, ghost X: nat, ghost Y: nat) returns (leaf: QTreeNode?)
      requires m.ValidTree() && m.Holds(k, this) && k.d <= TREE_DEPTH && k == KeyOf(X, Y, k.d)
      requires Remaining(X, k.d, x) && Remaining(Y, k.d, y)
      ensures leaf == m.Lookup(KeyOf(X, Y, TREE_DEPTH))
      decreases TREE_DEPTH - k.d
    {
      assert m.NodeOk(k);
      if !isLeaf {
        var index := Index(x, y);
        NextKey(X, Y, k.d, x, y);
        if child[index] != null {
          leaf := child[index].GetLeaf(Double(x), Double(y), m, ChildKey(k, index), X, Y);
        } else {
          leaf := null;
          m.MissingPrefix(X, Y, k.d + 1);
        }
      } else {
        leaf := this;
      }
    }

    /** `QTreeNode::createLeaf`. `created` is the static flag `newLeaf` of the original. */
    method CreateLeaf(x: nat, y: nat, level: nat, ghost m: Map, ghost k: Key, ghost X: nat, ghost Y: nat)
      returns (leaf: QTreeNode, created: bool)
      requires m.ValidTree() && m.Holds(k, this) && k.d <= TREE_DEPTH && k == KeyOf(X, Y, k.d) && level == 15 - k.d
      requires Remaining(X, k.d, x) && Remaining(Y, k.d, y)
      modifies m`at, m.at.Values`child
      ensures m.ValidTree() && m.Holds(KeyOf(X, Y, TREE_DEPTH), leaf)
      ensures created == (KeyOf(X, Y, TREE_DEPTH) !in old(m.at))
      ensures m.Grows(old(m.at), KeyOf(X, Y, TREE_DEPTH))
      ensures forall j :: j in m.at && j !in old(m.at) ==> fresh(m.at[j])
      decreases TREE_DEPTH - k.d
    {
      hide KidsOk, Find, ChildKey, Index, Double;
      assert m.NodeOk(k);
      if isLeaf {
        return this, false;
      }
      var index := Index(x, y);
      NextKey(X, Y, k.d, x, y);
      ghost var ck := ChildKey(k, index);
      Slot(m.at, child, k, index);
      created := false;
      if child[index] == null {
        LeafBlock(X);
        LeafBlock(Y);
        AddChild(index, level == 3, m, k);
        created := level == 3;
      }
      Slot(m.at, child, k, index);
      var deeper;
      leaf, deeper := child[index].CreateLeaf(Double(x), Double(y), level - 1, m, ck, X, Y);
      created := created || deeper;
    }

    /** Hangs a new node into an empty slot. */
    method AddChild(index: nat, leaf: bool, ghost m: Map, ghost k: Key)
      requires m.ValidTree() && m.Holds(k, this) && m.NodeOk(k)
      requires k.d < TREE_DEPTH && index < 4 && child[index] == null
      requires leaf == (k.d + 1 == TREE_DEPTH)
      requires var ck := ChildKey(k, index); leaf ==> ck.px < COORDS / FLOOR_SIZE && ck.py < COORDS / FLOOR_SIZE
      modifies m`at, this`child
      ensures m.ValidTree() && k in m.at && m.NodeOk(k)
      ensures var ck := ChildKey(k, index);
        && ck !in old(m.at) && ck in m.at && fresh(m.at[ck]) && m.at[ck].Blank()
        && m.at == old(m.at)[ck := m.at[ck]] && child[index] == m.at[ck]
    {
      hide KidsOk, Find, ChildKey;
      ghost var ck := ChildKey(k, index);
      ghost var at0 := m.at;
      ChildOf(k, index);
      Slot(at0, child, k, index);
      var n := new QTreeNode(leaf, ck);
      child := child[index := n];
      m.at := m.at[ck := n];
      forall j | j in m.at
        ensures m.NodeOk(j)
      {
        if j == ck {
          NoKids(at0, m.at, ck, n);
        } else {
          assert old(m.NodeOk(j));
          KidsKept(at0, old(at0[j].child), j, k, index, n);
        }
      }
    }

    /** `QTreeNode::getLeafStatic`, the same lookup as a loop. */
    static method GetLeafStatic(root: QTreeNode, x: nat, y: nat, ghost m: Map) returns (leaf: QTreeNode?)
      requires m.ValidTree() && root == m.root
      ensures leaf == m.Lookup(KeyOf(x, y, TREE_DEPTH))
    {
      var current: QTreeNode := root;
      var currentX, currentY := x, y;
      ghost var k := KeyOf(x, y, 0);
      StartBits(x);
      StartBits(y);
      assert m.NodeOk(k);
      while !current.isLeaf
        invariant m.Holds(k, current) && m.NodeOk(k) && k.d <= TREE_DEPTH && k == KeyOf(x, y, k.d)
        invariant Remaining(x, k.d, currentX) && Remaining(y, k.d, currentY)
        decreases TREE_DEPTH - k.d
      {
        var index := Index(currentX, currentY);
        NextKey(x, y, k.d, currentX, currentY);
        Slot(m.at, current.child, k, index);
        if current.child[index] == null {
          m.MissingPrefix(x, y, k.d + 1);
          return null;
        }
        current, currentX, currentY := current.child[index], Double(currentX), Double(currentY);
        k := ChildKey(k, index);
        assert m.NodeOk(k);
      }
      return current;
    }
  }

  /** The children listed by the node at `k` are those the keys tell. */
  ghost predicate KidsOk(at: map<Key, QTreeNode>, child: seq<QTreeNode?>, k: Key) {
    && |child| == 4
    && (forall i: nat :: i < 4 ==> child[i] == if k.d < TREE_DEPTH then Find(at, ChildKey(k, i)) else null)
  }

  ghost function Find(at: map<Key, QTreeNode>, k: Key): QTreeNode? {
    if k in at then at[k] else null
  }

  /** Hanging node `n` below `k` leaves the children of every listed node right. */
  lemma {:induction false} KidsKept(at: map<Key, QTreeNode>, child: seq<QTreeNode?>, j: Key, k: Key, index: nat, n: QTreeNode)
    requires KidsOk(at, child, j) && index < 4 && k.d < TREE_DEPTH
    ensures KidsOk(at[ChildKey(k, index) := n], if j == k then child[index := n] else child, j)
  {
    ChildOf(k, index);
    forall i: nat | i < 4
      ensures ChildKey(j, i) == ChildKey(k, index) <==> j == k && i == index
    {
      ChildOf(j, i);
    }
  }

  lemma {:induction false} Slot(at: map<Key, QTreeNode>, child: seq<QTreeNode?>, k: Key, index: nat)
    requires KidsOk(at, child, k) && k.d < TREE_DEPTH && index < 4
    ensures var ck := ChildKey(k, index);
      |child| == 4 && ck.d == k.d + 1 && (child[index] == null <==> ck !in at) && (ck in at ==> child[index] == at[ck])
  {
  }

  lemma {:induction false} NoKids(at: map<Key, QTreeNode>, at': map<Key, QTreeNode>, ck: Key, n: QTreeNode)
    requires ck !in at && at' == at[ck := n]
    requires forall k {:trigger ParentKey(k)} :: k in at && k.d > 0 ==> ParentKey(k) in at
    ensures KidsOk(at', [null, null, null, null], ck)
  {
    forall i: nat | i < 4
      ensures ChildKey(ck, i) !in at'
    {
      ChildOf(ck, i);
    }
  }

  class Map {
    const root: QTreeNode
    ghost var at: map<Key, QTreeNode>     // every node by the prefix it stands for
    ghost var tiles: map<Spot, Tile>      // the first tile stored at each position

    ghost predicate Holds(k: Key, n: QTreeNode)
      reads this
    {
      k in at && at[k] == n
    }

    ghost function Lookup(k: Key): QTreeNode?
      reads this
    {
      Find(at, k)
    }

    /** What the child array of one node says. */
    ghost predicate NodeOk(k: Key)
      requires k in at
      reads this, at[k]
    {
      var n := at[k];
      && n.key == k && k.d <= TREE_DEPTH && n.isLeaf == (k.d == TREE_DEPTH) && n.Shape()
      && (k.d == TREE_DEPTH ==> IsLeafKey(k))
      && KidsOk(at, n.child, k)
    }

    /** The nodes form one tree whose shape is that of the keys. */
    ghost predicate ValidTree()
      reads this, at.Values
    {
      && Holds(Key(0, 0, 0), root)
      && (forall k {:trigger NodeOk(k)} :: k in at ==> NodeOk(k))
      && (forall k {:trigger ParentKey(k)} :: k in at && k.d > 0 ==> ParentKey(k) in at)
    }

    constructor ()
      ensures Valid() && fresh(root) && at == map[Key(0, 0, 0) := root] && tiles == map[]
      ensures root.Blank()
    {
      root := new QTreeNode(false, Key(0, 0, 0));
      at, tiles := map[Key(0, 0, 0) := root], map[];
    }

    /** Nodes are kept and only inner nodes and the leaf `leafKey` are new. */
    ghost predicate Grows(before: map<Key, QTreeNode>, leafKey: Key)
      reads this, at.Values
    {
      && (forall j :: j in before ==> j in at && at[j] == before[j])
      && (forall j :: j in at && j !in before && j.d == TREE_DEPTH ==> j == leafKey && FreshLeaf(j))
    }

    ghost predicate FreshLeaf(j: Key)
      requires j in at
      reads this, at[j]
    {
      at[j].Blank()
    }

    lemma {:induction false} MissingPrefix(X: nat, Y: nat, d: nat)
      requires ValidTree() && d <= TREE_DEPTH && KeyOf(X, Y, d) !in at
      ensures KeyOf(X, Y, TREE_DEPTH) !in at
      decreases TREE_DEPTH - d
    {
      if d < TREE_DEPTH {
        ShorterKey(X, Y, d);
        var k := KeyOf(X, Y, d + 1);
        assert ParentKey(k) == KeyOf(X, Y, d);
        MissingPrefix(X, Y, d + 1);
      }
    }

    // ----- neighbour links

    /** The links of the leaf at `k` are what looking up the neighbouring positions answers. */
    ghost predicate LinkOk(k: Key)
      requires k in at
      reads this, at[k]
    {
      at[k].leafE == Lookup(East(k)) && at[k].leafS == Lookup(South(k))
    }

    ghost predicate Linked()
      reads this, at.Values
    {
      forall k {:trigger LinkOk(k)} :: k in at && k.d == TREE_DEPTH ==> LinkOk(k)
    }

    /** `if(northLeaf) northLeaf->m_leafS = leaf` and its kin: nothing else changes, and the tree's shape
        does not depend on it. */
    method SetSouth(n: QTreeNode?, leaf: QTreeNode?, ghost nk: Key)
      requires ValidTree() && n == Lookup(nk)
      modifies at.Values`leafS
      ensures ValidTree()
      ensures forall k {:trigger at[k]} :: k in at ==>
        at[k].leafS == if k == nk && leaf != null then leaf else old(at[k].leafS)
    {
      if n != null && leaf != null {
        n.leafS := leaf;
        assert forall k {:trigger NodeOk(k)} :: k in at ==> old(NodeOk(k)) ==> NodeOk(k);
        forall k | k in at && k != nk
          ensures at[k] != n
        {
          assert NodeOk(k) && NodeOk(nk);
        }
      }
    }

    method SetEast(n: QTreeNode?, leaf: QTreeNode?, ghost nk: Key)
      requires ValidTree() && n == Lookup(nk)
      modifies at.Values`leafE
      ensures ValidTree()
      ensures forall k {:trigger at[k]} :: k in at ==>
        at[k].leafE == if k == nk && leaf != null then leaf else old(at[k].leafE)
    {
      if n != null && leaf != null {
        n.leafE := leaf;
        assert forall k {:trigger NodeOk(k)} :: k in at ==> old(NodeOk(k)) ==> NodeOk(k);
        forall k | k in at && k != nk
          ensures at[k] != n
        {
          assert NodeOk(k) && NodeOk(nk);
        }
      }
    }

    lemma {:induction false} LeafKeysInRange()
      requires ValidTree()
      ensures forall k {:trigger at[k]} :: k in at && k.d == TREE_DEPTH ==> IsLeafKey(k)
    {
      forall k | k in at && k.d == TREE_DEPTH
        ensures IsLeafKey(k)
      {
        assert NodeOk(k);
      }
    }

    /** Links a new leaf with its four neighbours, as `setTile` does. */
    method LinkNewLeaf(leaf: QTreeNode, x: nat, y: nat)
      requires ValidTree() && x < COORDS && y < COORDS && Holds(LeafKey(x, y), leaf)
      // every leaf is linked right as long as the new one does not count
      requires forall k {:trigger at[k]} :: k in at && k.d == TREE_DEPTH ==>
        && at[k].leafE == (if East(k) == LeafKey(x, y) || k == LeafKey(x, y) then null else Lookup(East(k)))
        && at[k].leafS == (if South(k) == LeafKey(x, y) || k == LeafKey(x, y) then null else Lookup(South(k)))
      modifies at.Values`leafS, at.Values`leafE
      ensures ValidTree() && Linked()
    {
      hide KidsOk, East, South, West, North, NodeOk;
      ghost var lk := LeafKey(x, y);
      KeysAround(x, y);
      LeafKeysInRange();
      var north := GetLeaf(x, Minus(y));
      SetSouth(north, leaf, North(lk));
      var west := GetLeaf(Minus(x), y);
      SetEast(west, leaf, West(lk));
      var south := GetLeaf(x, y + FLOOR_SIZE);
      SetSouth(leaf, south, lk);
      var east := GetLeaf(x + FLOOR_SIZE, y);
      SetEast(leaf, east, lk);
      forall k | k in at && k.d == TREE_DEPTH
        ensures LinkOk(k)
      {
        NeighboursInverse(k, lk);
        NeighboursInverse(lk, lk);
      }
    }

    /** `root.getLeaf`. */
    method GetLeaf(x: nat, y: nat) returns (leaf: QTreeNode?)
      requires ValidTree()
      ensures leaf == Lookup(KeyOf(x, y, TREE_DEPTH))
    {
      StartBits(x);
      StartBits(y);
      leaf := root.GetLeaf(x, y, this, Key(0, 0, 0), x, y);
    }

    // ----- tiles

    ghost function TileAt(p: Spot): Tile?
      requires ValidTree() && p.OnMap()
      reads this, at.Values
    {
      var k := LeafKey(p.x, p.y);
      if k in at then assert NodeOk(k); TileIn(at[k].floors, p) else null
    }

    /** The leaves keep exactly the tiles of the abstract map. */
    ghost predicate Stored()
      requires ValidTree()
      reads this, at.Values
    {
      && (forall p :: p in tiles ==> p.OnMap())
      && (forall p: Spot {:trigger TileAt(p)} :: p.OnMap() ==> TileAt(p) == if p in tiles then tiles[p] else null)
    }

    ghost predicate Valid()
      reads this, at.Values
    {
      ValidTree() && Linked() && Stored()
    }

    /** `Map::getTile`, which looks leaves up with the loop. */
    method GetTile(x: nat, y: nat, z: nat) returns (tile: Tile?)
      requires Valid() && x < COORDS && y < COORDS && z < COORDS
      ensures tile == if Spot(x, y, z) in tiles then tiles[Spot(x, y, z)] else null
    {
      if z < MAP_MAX_LAYERS {
        KeysAround(x, y);
        ghost var t := TileAt(Spot(x, y, z));
        var leaf := QTreeNode.GetLeafStatic(root, x, y, this);
        if leaf != null {
          assert NodeOk(LeafKey(x, y));
          var floor := leaf.floors[z];
          if floor.Some? {
            return floor.value[x % FLOOR_SIZE][y % FLOOR_SIZE];
          }
          return null;
        }
        return null;
      }
      return null;
    }

    /** Puts a tile into its leaf unless the place is taken. */
    method PutTile(leaf: QTreeNode, p: Spot, newtile: Tile)
      requires Valid() && p.OnMap() && Holds(LeafKey(p.x, p.y), leaf)
      modifies this`tiles, leaf`floors, newtile`qtNode
      ensures Valid() && tiles == Store(old(tiles), p, newtile)
      ensures p !in old(tiles) ==> newtile.qtNode == leaf
    {
      ghost var lk := LeafKey(p.x, p.y);
      assert NodeOk(lk);
      ghost var floors0 := leaf.floors;
      assert TileAt(p) == TileIn(floors0, p);
      var floor := if leaf.floors[p.z].Some? then leaf.floors[p.z].value else EmptyFloor();
      leaf.floors := leaf.floors[p.z := Some(floor)];
      if floor[p.x % FLOOR_SIZE][p.y % FLOOR_SIZE] == null {
        var row := floor[p.x % FLOOR_SIZE][p.y % FLOOR_SIZE := newtile];
        leaf.floors := leaf.floors[p.z := Some(floor[p.x % FLOOR_SIZE := row])];
        newtile.qtNode := leaf;
        assert leaf.floors == PutIn(floors0, p, newtile);
        PutInMeaning(floors0, p, newtile, p);
        tiles := tiles[p := newtile];
        KeepTree(lk);
        forall o: Spot | o.OnMap()
          ensures TileAt(o) == if o in tiles then tiles[o] else null
        {
          assert old(TileAt(o)) == if o in old(tiles) then old(tiles)[o] else null;
          if LeafKey(o.x, o.y) == lk { PutInMeaning(floors0, p, newtile, o); }
        }
      } else {
        assert leaf.floors == floors0;
        KeepTree(lk);
        forall o: Spot | o.OnMap()
          ensures TileAt(o) == if o in tiles then tiles[o] else null
        {
          assert old(TileAt(o)) == if o in old(tiles) then old(tiles)[o] else null;
        }
      }
    }

    /** Changing the floors of one leaf keeps the tree, the links and every other leaf's tiles. */
    twostate lemma {:induction false} KeepTree(lk: Key)
      requires old(ValidTree()) && old(Linked()) && at == old(at) && lk in at
      requires FloorsOk(at[lk].floors) && at[lk].child == old(at[lk].child)
      requires at[lk].leafE == old(at[lk].leafE) && at[lk].leafS == old(at[lk].leafS)
      requires forall k {:trigger at[k]} :: k in at && at[k] != at[lk] ==> unchanged(at[k])
      ensures ValidTree() && Linked()
      ensures forall k {:trigger at[k]} :: k in at && k != lk ==> at[k].floors == old(at[k].floors)
    {
      assert old(NodeOk(lk));
      forall k | k in at
        ensures NodeOk(k)
        ensures k != lk ==> at[k] != at[lk]
      {
        assert old(NodeOk(k));
      }
      forall k | k in at && k.d == TREE_DEPTH
        ensures LinkOk(k)
      {
        assert old(LinkOk(k));
      }
    }

    /** The first half of `setTile`: the leaf that covers (x, y), created and linked if need be. */
    method MakeLeaf(x: nat, y: nat) returns (leaf: QTreeNode)
      requires Valid() && x < COORDS && y < COORDS
      modifies this`at, at.Values`child, at.Values`leafS, at.Values`leafE
      ensures Valid() && Holds(LeafKey(x, y), leaf)
      ensures forall k :: k in old(at) ==> k in at && at[k] == old(at)[k]
      ensures forall k {:trigger at[k]} :: k in at && k !in old(at) ==>
        k.d == TREE_DEPTH ==> at[k].creatures == []
      ensures fresh(at.Values - old(at.Values))
    {
      hide KidsOk, NodeOk, East, South;
      KeysAround(x, y);
      StartBits(x);
      StartBits(y);
      var created;
      leaf, created := root.CreateLeaf(x, y, 15, this, Key(0, 0, 0), x, y);
      KeepStored(LeafKey(x, y));
      forall n | n in at.Values - old(at.Values)
        ensures fresh(n)
      {
        var k :| k in at && at[k] == n;
        assert k !in old(at);
      }
      if created {
        label L:
        LinkNewLeaf(leaf, x, y);
        assert forall o: Spot {:trigger TileAt(o)} :: o.OnMap() ==> TileAt(o) == old@L(TileAt(o));
      }
    }

    /** `Map::setTile`. Beyond the tile map it says which leaf the tile is hung on; creature lists are
        outside what it may modify, and those of new leaves are empty. */
    method SetTile(x: nat, y: nat, z: nat, newtile: Tile)
      requires Valid() && x < COORDS && y < COORDS && z < COORDS
      modifies this`at, this`tiles, at.Values`child, at.Values`leafS, at.Values`leafE, at.Values`floors, newtile`qtNode
      ensures Valid() && tiles == Store(old(tiles), Spot(x, y, z), newtile)
      ensures Spot(x, y, z).OnMap() && Spot(x, y, z) !in old(tiles) ==>
        newtile.qtNode != null && Holds(LeafKey(x, y), newtile.qtNode)
      ensures forall k :: k in old(at) ==> k in at && at[k] == old(at)[k]
      ensures forall k {:trigger at[k]} :: k in at && k !in old(at) ==>
        k.d == TREE_DEPTH ==> at[k].creatures == []
      ensures fresh(at.Values - old(at.Values))
    {
      if z >= MAP_MAX_LAYERS {
        return;
      }
      var leaf := MakeLeaf(x, y);
      PutTile(leaf, Spot(x, y, z), newtile);
    }

    /** Growing the tree by a blank leaf stores and links nothing new. */
    twostate lemma {:induction false} KeepStored(lk: Key)
      requires old(Valid()) && ValidTree() && IsLeafKey(lk) && Grows(old(at), lk) && tiles == old(tiles) && lk in at
      requires forall k {:trigger at[k]} :: k in old(at) ==>
        at[k].floors == old(at[k].floors) && at[k].leafE == old(at[k].leafE) && at[k].leafS == old(at[k].leafS)
      ensures Stored()
      ensures lk in old(at) ==> Linked()
      ensures lk !in old(at) ==> forall k {:trigger at[k]} :: k in at && k.d == TREE_DEPTH ==>
        && at[k].leafE == (if East(k) == lk || k == lk then null else Lookup(East(k)))
        && at[k].leafS == (if South(k) == lk || k == lk then null else Lookup(South(k)))
    {
      forall k | k in at && k.d == TREE_DEPTH && k in old(at)
        ensures at[k].leafE == old(Lookup(East(k))) && at[k].leafS == old(Lookup(South(k)))
      {
        assert old(LinkOk(k));
      }
      forall o: Spot | o.OnMap()
        ensures TileAt(o) == if o in tiles then tiles[o] else null
      {
        assert old(TileAt(o)) == if o in old(tiles) then old(tiles)[o] else null;
        var k := LeafKey(o.x, o.y);
        if k in at {
          assert NodeOk(k);
          if k in old(at) { assert old(NodeOk(k)); }
        }
      }
      if lk in old(at) {
        forall k | k in at && k.d == TREE_DEPTH
          ensures LinkOk(k)
        {
          assert old(LinkOk(k));
        }
      }
    }
  }

  /** What one `setTile` call makes of the abstract map: the first tile stored at a position stays. */
  function Store(tiles: map<Spot, Tile>, p: Spot, t: Tile): map<Spot, Tile> {
    if p.OnMap() && p !in tiles then tiles[p := t] else tiles
  }

  /** The abstract map after a whole sequence of `setTile` calls on an empty one. */
  function StoreAll(ops: seq<(Spot, Tile)>): map<Spot, Tile> {
    if ops == [] then map[]
    else
      var last := ops[|ops| - 1];
      Store(StoreAll(ops[..|ops| - 1]), last.0, last.1)
  }

  /** `i` is the first call that stores at `p`. */
  ghost predicate FirstAt(ops: seq<(Spot, Tile)>, p: Spot, i: nat) {
    i < |ops| && ops[i].0 == p && forall j :: 0 <= j < i ==> ops[j].0 != p
  }

  /** After any calls a position holds what its first call stored, and nothing if there was none. */
  lemma {:induction false} FirstStored(ops: seq<(Spot, Tile)>, p: Spot)
    ensures forall i: nat :: FirstAt(ops, p, i) && p.x < 65536 && p.y < 65536 && p.z < 16 ==>
      p in StoreAll(ops) && StoreAll(ops)[p] == ops[i].1
    ensures (p.x >= 65536 || p.y >= 65536 || p.z >= 16 || forall j :: 0 <= j < |ops| ==> ops[j].0 != p) ==> p !in StoreAll(ops)
  {
    if ops != [] {
      var init := ops[..|ops| - 1];
      FirstStored(init, p);
      forall i: nat | FirstAt(ops, p, i) && p.OnMap()
        ensures p in StoreAll(ops) && StoreAll(ops)[p] == ops[i].1
      {
        if i < |init| {
          assert FirstAt(init, p, i);
        } else {
          assert forall j :: 0 <= j < |init| ==> init[j].0 == ops[j].0;
        }
      }
    }
  }

  /** A run of `setTile` calls on a fresh map, and what `getTile` answers afterwards. */
  method RunSetTile(ops: seq<(Spot, Tile)>) returns (m: Map)
    requires forall i :: 0 <= i < |ops| ==> ops[i].0.x < COORDS && ops[i].0.y < COORDS && ops[i].0.z < COORDS
    modifies set i | 0 <= i < |ops| :: ops[i].1
    ensures m.Valid() && m.tiles == StoreAll(ops)
  {
    m := new Map();
    for i := 0 to |ops|
      invariant fresh(m) && m.Valid() && m.tiles == StoreAll(ops[..i]) && fresh(m.at.Values)
    {
      assert ops[..i + 1][..i] == ops[..i];
      m.SetTile(ops[i].0.x, ops[i].0.y, ops[i].0.z, ops[i].1);
    }
    assert ops[..|ops|] == ops;
  }
}
