/** The spectator scan `Map::getSpectatorsInternal` (font/map.cpp): it walks leaves along their east and
    south links instead of looking at every creature. */
module Spectators {
  import opened Arithmetic
  import opened Prefix
  import opened QuadTree

  datatype Ranges = Ranges(minX: int, maxX: int, minY: int, maxY: int, minZ: int, maxZ: int)

  // ----- the naive filter

  /** On the floor of the centre a creature is in range exactly if it is within the distances on both axes, the
      limits included. */
  lemma {:induction false} OnSameFloor(p: Spot, center: Spot, r: Ranges)
    requires p.z == center.z
    ensures InRange(p, center, r) <==>
      r.minX <= p.x - center.x <= r.maxX && r.minY <= p.y - center.y <= r.maxY && r.minZ <= center.z <= r.maxZ
  {
  }

  /** Each floor up shifts what is seen by one tile to the south-east. */
  lemma {:induction false} FloorsShift(p: Spot, center: Spot, r: Ranges)
    requires p.z > 0 && r.minZ < p.z <= r.maxZ
    ensures InRange(Spot(p.x + 1, p.y + 1, p.z - 1), center, r) <==> InRange(p, center, r)
  {
  }

  /** The floor-shifted range tests made on each creature. */
  predicate InRange(p: Spot, center: Spot, r: Ranges) {
    var offsetZ := center.z - p.z;
    && r.minZ <= p.z <= r.maxZ
    && center.y + r.minY + offsetZ <= p.y <= center.y + r.maxY + offsetZ
    && center.x + r.minX + offsetZ <= p.x <= center.x + r.maxX + offsetZ
  }

  ghost predicate NoRepeats(s: seq<Creature>) {
    forall i, j :: 0 <= i < j < |s| ==> s[i] != s[j]
  }

  lemma {:induction false} NoRepeatsAppend(a: seq<Creature>, b: seq<Creature>)
    requires NoRepeats(a) && NoRepeats(b) && forall c :: c in b ==> c !in a
    ensures NoRepeats(a + b)
  {
    forall i, j | 0 <= i < j < |a + b|
      ensures (a + b)[i] != (a + b)[j]
    {
      assert (a + b)[j] in a || (a + b)[j] in b;
    }
  }

  /** All creatures listed by nodes of the map. */
  ghost function Listed(m: Map): set<Creature>
    reads m, m.at.Values
  {
    set n, c | n in m.at.Values && c in n.creatures :: c
  }

  /** All creatures on the map. */
  ghost function Population(m: Map): set<Creature>
    reads m, m.at.Values
  {
    set n, c | n in m.at.Values && n.isLeaf && c in n.creatures :: c
  }

  /** Every creature is listed once, in the leaf that covers its position. */
  ghost predicate PlacedRight(m: Map)
    reads m, m.at.Values, set n, c | n in m.at.Values && c in n.creatures :: c
  {
    && (forall n :: n in m.at.Values && n.isLeaf ==> NoRepeats(n.creatures))
    && (forall n, c :: n in m.at.Values && n.isLeaf && c in n.creatures ==>
          c.pos.OnMap() && LeafKey(c.pos.x, c.pos.y) == n.key)
  }

  // ----- the scanned area

  function Clamp(n: int): (c: nat)
    ensures c < COORDS
  {
    Min(0xFFFF, Max(0, n))
  }

  function Floor8(n: nat): (f: nat)
    ensures f <= n < f + FLOOR_SIZE && f % FLOOR_SIZE == 0
  {
    n - n % FLOOR_SIZE
  }

  /** The area to scan: first and last block on each axis. */
  datatype Area = Area(startX: nat, startY: nat, endX: nat, endY: nat)

  function ScanArea(center: Spot, r: Ranges): Area {
    var minoffset, maxoffset := center.z - r.maxZ, center.z - r.minZ;
    Area(Floor8(Clamp(center.x + r.minX + minoffset)), Floor8(Clamp(center.y + r.minY + minoffset)),
         Floor8(Clamp(center.x + r.maxX + maxoffset)), Floor8(Clamp(center.y + r.maxY + maxoffset)))
  }

  /** Whoever passes the range tests stands inside the area, also where it is clamped to the map. */
  lemma {:induction false} AreaCovers(p: Spot, center: Spot, r: Ranges)
    requires p.OnMap() && InRange(p, center, r)
    ensures var a := ScanArea(center, r);
      a.startX <= Floor8(p.x) <= a.endX && a.startY <= Floor8(p.y) <= a.endY
  {
  }

  /** The leaf at a block the scan has reached; one block past the border it wraps. */
  function BlockKey(nx: nat, ny: nat): Key { Key(TREE_DEPTH, nx / FLOOR_SIZE % BLOCKS, ny / FLOOR_SIZE % BLOCKS) }

  /** Positions in blocks before (nx, ny) in the order of the scan. */
  predicate Before(a: Area, p: Spot, nx: int, ny: int) {
    && a.startX <= Floor8(p.x) <= a.endX && a.startY <= Floor8(p.y)
    && (Floor8(p.y) < ny || (Floor8(p.y) == ny && Floor8(p.x) < nx))
  }

  ghost predicate Wanted(c: Creature, center: Spot, r: Ranges, dup: bool, list: seq<Creature>)
    reads c
  {
    InRange(c.pos, center, r) && (dup ==> c !in list)
  }

  /** The wanted creatures of the blocks before (nx, ny). */
  ghost function WantedBefore(m: Map, center: Spot, r: Ranges, dup: bool, list: seq<Creature>, nx: int, ny: int): set<Creature>
    reads m, m.at.Values, Listed(m)
  {
    set c | c in Population(m) && Wanted(c, center, r, dup, list) && Before(ScanArea(center, r), c.pos, nx, ny)
  }

  ghost function Elements(s: seq<Creature>): set<Creature> { set c | c in s }

  /** The loop over one leaf's creatures. */
  method ScanLeaf(leaf: QTreeNode, list: seq<Creature>, center: Spot, r: Ranges, dup: bool)
    returns (result: seq<Creature>)
    requires NoRepeats(leaf.creatures)
    ensures list <= result && NoRepeats(result[|list|..])
    ensures forall c :: c in result[|list|..] <==> c in leaf.creatures && Wanted(c, center, r, dup, list)
  {
    result := list;
    ghost var added: seq<Creature> := [];
    for i := 0 to |leaf.creatures|
      invariant result == list + added && NoRepeats(added)
      invariant forall c :: c in added <==> c in leaf.creatures[..i] && Wanted(c, center, r, dup, list)
    {
      var creature := leaf.creatures[i];
      assert leaf.creatures[..i + 1] == leaf.creatures[..i] + [creature];
      var cpos := creature.pos;
      var offsetZ := center.z - cpos.z;
      if cpos.z < r.minZ || cpos.z > r.maxZ {
        continue;
      }
      if cpos.y < center.y + r.minY + offsetZ || cpos.y > center.y + r.maxY + offsetZ {
        continue;
      }
      if cpos.x < center.x + r.minX + offsetZ || cpos.x > center.x + r.maxX + offsetZ {
        continue;
      }
      if !dup || creature !in result {
        assert creature !in leaf.creatures[..i];
        NoRepeatsAppend(added, [creature]);
        result := result + [creature];
        added := added + [creature];
      }
    }
    assert result[|list|..] == added && leaf.creatures[..|leaf.creatures|] == leaf.creatures;
  }

  /** To the list have been appended these creatures, each exactly once, and nothing else. */
  ghost predicate Grown(list: seq<Creature>, result: seq<Creature>, found: set<Creature>) {
    && list <= result
    && NoRepeats(result[|list|..])
    && Elements(result[|list|..]) == found
  }

  lemma {:induction false} BeforeRow(a: Area, p: Spot, nx: nat, ny: nat)
    requires ny % FLOOR_SIZE == 0 && nx > a.endX
    ensures Before(a, p, nx, ny) <==> Before(a, p, a.startX, ny + FLOOR_SIZE)
  {
  }

  /** A row whose last block is behind is complete. */
  lemma {:induction false} RowDone(m: Map, center: Spot, r: Ranges, dup: bool, list: seq<Creature>, nx: nat, ny: nat)
    requires ny % FLOOR_SIZE == 0 && nx > ScanArea(center, r).endX
    ensures WantedBefore(m, center, r, dup, list, nx, ny)
         == WantedBefore(m, center, r, dup, list, ScanArea(center, r).startX, ny + FLOOR_SIZE)
  {
    forall c | c in Population(m)
      ensures var a := ScanArea(center, r); Before(a, c.pos, nx, ny) <==> Before(a, c.pos, a.startX, ny + FLOOR_SIZE)
    {
      BeforeRow(ScanArea(center, r), c.pos, nx, ny);
    }
  }

  /** Nothing is behind the first block, and every wanted creature is behind the last row. */
  lemma {:induction false} ScanEnds(m: Map, center: Spot, r: Ranges, dup: bool, list: seq<Creature>, ny: nat)
    requires m.Valid() && PlacedRight(m)
    ensures var a := ScanArea(center, r);
      && WantedBefore(m, center, r, dup, list, a.startX, a.startY) == {}
      && (ny > a.endY ==>
            WantedBefore(m, center, r, dup, list, a.startX, ny) ==
            set c | c in Population(m) && Wanted(c, center, r, dup, list))
  {
    var a := ScanArea(center, r);
    forall c | c in Population(m) && InRange(c.pos, center, r)
      ensures ny > a.endY ==> Before(a, c.pos, a.startX, ny)
    {
      HomeOf(m, c);
      AreaCovers(c.pos, center, r);
    }
  }

  /** Stepping along a link, or looking the next block up, leads to the next block of the scan. */
  lemma {:induction false} NextBlock(m: Map, nx: nat, ny: nat)
    requires m.Valid() && nx < COORDS && ny < COORDS && nx % FLOOR_SIZE == 0 && ny % FLOOR_SIZE == 0
    ensures KeyOf(nx, ny, TREE_DEPTH) == BlockKey(nx, ny)
    ensures KeyOf((nx + FLOOR_SIZE) % COORDS, ny, TREE_DEPTH) == BlockKey(nx + FLOOR_SIZE, ny)
    ensures KeyOf(nx, (ny + FLOOR_SIZE) % COORDS, TREE_DEPTH) == BlockKey(nx, ny + FLOOR_SIZE)
    ensures var k := BlockKey(nx, ny); k in m.at ==>
      && m.at[k].leafE == m.Lookup(BlockKey(nx + FLOOR_SIZE, ny))
      && m.at[k].leafS == m.Lookup(BlockKey(nx, ny + FLOOR_SIZE))
  {
    KeysAround(nx, ny);
    SameLow(nx + FLOOR_SIZE);
    SameLow(ny + FLOOR_SIZE);
    BlockNumber(nx);
    BlockNumber(ny);
    var k := BlockKey(nx, ny);
    if k in m.at { assert m.LinkOk(k); }
  }

  lemma {:induction false} SameLow(n: nat)
    ensures Leading(n % COORDS, TREE_DEPTH) == Leading(n, TREE_DEPTH)
  {
    assert n % COORDS % COORDS == n % COORDS;
  }

  lemma {:induction false} BlockNumber(n: nat)
    requires n < COORDS && n % FLOOR_SIZE == 0
    ensures n / FLOOR_SIZE % BLOCKS == n / FLOOR_SIZE && (n + FLOOR_SIZE) / FLOOR_SIZE % BLOCKS == Next(n / FLOOR_SIZE)
  {
    var q := n / FLOOR_SIZE;
    DivUnique(n + FLOOR_SIZE, FLOOR_SIZE, q + 1, 0);
    DivUnique(q, BLOCKS, 0, q);
    if q + 1 == BLOCKS { DivUnique(q + 1, BLOCKS, 1, 0); } else { DivUnique(q + 1, BLOCKS, 0, q + 1); }
  }

  lemma {:induction false} BlockAxis(x: nat, nx: nat)
    requires x < COORDS && nx < COORDS && nx % FLOOR_SIZE == 0
    ensures x / FLOOR_SIZE == nx / FLOOR_SIZE % BLOCKS <==> Floor8(x) == nx
  {
    var q := nx / FLOOR_SIZE;
    assert nx == FLOOR_SIZE * q && q < BLOCKS;
    DivUnique(q, BLOCKS, 0, q);
    assert x == FLOOR_SIZE * (x / FLOOR_SIZE) + x % FLOOR_SIZE;
  }

  lemma {:induction false} BlockOf(p: Spot, nx: nat, ny: nat)
    requires p.OnMap() && nx % FLOOR_SIZE == 0 && ny % FLOOR_SIZE == 0 && nx < COORDS && ny < COORDS
    ensures LeafKey(p.x, p.y) == BlockKey(nx, ny) <==> Floor8(p.x) == nx && Floor8(p.y) == ny
  {
    BlockAxis(p.x, nx);
    BlockAxis(p.y, ny);
  }

  lemma {:induction false} BeforeNext(a: Area, p: Spot, nx: nat, ny: nat)
    requires a.startX <= nx <= a.endX && a.startY <= ny && nx % FLOOR_SIZE == 0
    ensures Before(a, p, nx + FLOOR_SIZE, ny) <==> Before(a, p, nx, ny) || (Floor8(p.x) == nx && Floor8(p.y) == ny)
  {
  }

  /** The creatures listed at a place of the tree. */
  ghost function CreaturesAt(m: Map, k: Key): seq<Creature>
    reads m, m.at.Values
  {
    if k in m.at then m.at[k].creatures else []
  }

  /** A creature is listed at the place that covers its position and nowhere else. */
  lemma {:induction false} HomeOf(m: Map, c: Creature)
    requires m.Valid() && PlacedRight(m) && c in Population(m)
    ensures c.pos.OnMap()
    ensures forall k: Key :: k.d == TREE_DEPTH ==> (c in CreaturesAt(m, k) <==> k == LeafKey(c.pos.x, c.pos.y))
  {
    var n :| n in m.at.Values && n.isLeaf && c in n.creatures;
    var j :| j in m.at && m.at[j] == n;
    assert m.NodeOk(j);
    assert LeafKey(c.pos.x, c.pos.y) == n.key == j;
    forall k: Key | k.d == TREE_DEPTH && k in m.at && c in m.at[k].creatures
      ensures k == j
    {
      assert m.NodeOk(k);
      var o := m.at[k];
      assert o in m.at.Values && o.isLeaf && c in o.creatures;
      assert LeafKey(c.pos.x, c.pos.y) == o.key == k;
    }
  }

  lemma {:induction false} CreaturesAtPopulation(m: Map, k: Key)
    requires m.Valid() && k.d == TREE_DEPTH
    ensures forall c :: c in CreaturesAt(m, k) ==> c in Population(m)
  {
    if k in m.at { assert m.NodeOk(k); }
  }

  /** Scanning the leaf at (nx, ny) moves the scan on by one block. */
  lemma {:induction false} BlockDone(m: Map, center: Spot, r: Ranges, dup: bool, list: seq<Creature>,
                                     added: seq<Creature>, more: seq<Creature>, nx: nat, ny: nat)
    requires m.Valid() && PlacedRight(m) && NoRepeats(added) && NoRepeats(more)
    requires nx % FLOOR_SIZE == 0 && ny % FLOOR_SIZE == 0 && nx < COORDS && ny < COORDS
    requires var a := ScanArea(center, r); a.startX <= nx <= a.endX && a.startY <= ny
    requires Elements(added) == WantedBefore(m, center, r, dup, list, nx, ny)
    requires forall c :: c in more <==> c in CreaturesAt(m, BlockKey(nx, ny)) && Wanted(c, center, r, dup, list + added)
    ensures NoRepeats(added + more)
    ensures Elements(added + more) == WantedBefore(m, center, r, dup, list, nx + FLOOR_SIZE, ny)
  {
    var a := ScanArea(center, r);
    var k := BlockKey(nx, ny);
    forall c | c in Population(m)
      ensures Before(a, c.pos, nx + FLOOR_SIZE, ny) <==> Before(a, c.pos, nx, ny) || c in CreaturesAt(m, k)
      ensures !(Before(a, c.pos, nx, ny) && c in CreaturesAt(m, k))
    {
      HomeOf(m, c);
      BeforeNext(a, c.pos, nx, ny);
      BlockOf(c.pos, nx, ny);
    }
    CreaturesAtPopulation(m, k);
    assert forall c :: c in added ==> c in Elements(added);
    assert forall c :: c in more <==> c in CreaturesAt(m, k) && Wanted(c, center, r, dup, list);
    NoRepeatsAppend(added, more);
    assert Elements(added + more) == Elements(added) + Elements(more);
  }

  lemma {:induction false} NothingGrown(list: seq<Creature>)
    ensures Grown(list, list, {})
  {
  }

  lemma {:induction false} GrownIs(list: seq<Creature>, result: seq<Creature>, found: set<Creature>)
    requires Grown(list, result, found)
    ensures list <= result && NoRepeats(result[|list|..])
    ensures forall c :: c in result[|list|..] <==> c in found
  {
    assert forall c :: c in result[|list|..] <==> c in Elements(result[|list|..]);
  }

  /** Scans the leaf at (nx, ny) if there is one. */
  method ScanBlock(m: Map, leaf: QTreeNode?, current: seq<Creature>, center: Spot, dup: bool, r: Ranges,
                   ghost list: seq<Creature>, ghost nx: nat, ghost ny: nat)
    returns (result: seq<Creature>)
    requires m.Valid() && PlacedRight(m) && leaf == m.Lookup(BlockKey(nx, ny))
    requires nx % FLOOR_SIZE == 0 && ny % FLOOR_SIZE == 0 && nx < COORDS && ny < COORDS
    requires var a := ScanArea(center, r); a.startX <= nx <= a.endX && a.startY <= ny
    requires Grown(list, current, WantedBefore(m, center, r, dup, list, nx, ny))
    ensures Grown(list, result, WantedBefore(m, center, r, dup, list, nx + FLOOR_SIZE, ny))
  {
    result := current;
    ghost var added, more := current[|list|..], [];
    if leaf != null {
      assert m.NodeOk(BlockKey(nx, ny)) && leaf in m.at.Values;
      result := ScanLeaf(leaf, result, center, r, dup);
      more := result[|current|..];
    }
    assert list + added == current && result[|list|..] == added + more;
    BlockDone(m, center, r, dup, list, added, more, nx, ny);
  }

  lemma {:induction false} AreaShape(center: Spot, r: Ranges)
    ensures var a := ScanArea(center, r);
      && a.startX < COORDS && a.startY < COORDS && a.endX < COORDS && a.endY < COORDS
      && a.startX % FLOOR_SIZE == 0 && a.startY % FLOOR_SIZE == 0
      && a.endX % FLOOR_SIZE == 0 && a.endY % FLOOR_SIZE == 0
  {
  }

  /** One row of blocks, along the east links. */
  method ScanRow(m: Map, leafS: QTreeNode?, current: seq<Creature>, center: Spot, dup: bool, r: Ranges,
                 ghost list: seq<Creature>, ny: nat)
    returns (result: seq<Creature>)
    requires m.Valid() && PlacedRight(m) && ny % FLOOR_SIZE == 0
    requires var a := ScanArea(center, r); a.startY <= ny <= a.endY && leafS == m.Lookup(BlockKey(a.startX, ny))
    requires Grown(list, current, WantedBefore(m, center, r, dup, list, ScanArea(center, r).startX, ny))
    ensures Grown(list, result, WantedBefore(m, center, r, dup, list, ScanArea(center, r).startX, ny + FLOOR_SIZE))
  {
    hide ScanArea, BlockKey, KeyOf, Leading, InRange, Before, NoRepeats, Elements;
    var a := ScanArea(center, r);
    AreaShape(center, r);
    result := current;
    var leafE := leafS;
    var nx := a.startX;
    while nx <= a.endX
      invariant nx % FLOOR_SIZE == 0 && a.startX <= nx
      invariant nx <= a.endX ==> leafE == m.Lookup(BlockKey(nx, ny))
      invariant Grown(list, result, WantedBefore(m, center, r, dup, list, nx, ny))
      decreases a.endX + FLOOR_SIZE - nx
    {
      NextBlock(m, nx, ny);
      result := ScanBlock(m, leafE, result, center, dup, r, list, nx, ny);
      if leafE != null {
        leafE := leafE.leafE;
      } else {
        leafE := m.GetLeaf((nx + FLOOR_SIZE) % COORDS, ny);
      }
      nx := nx + FLOOR_SIZE;
    }
    RowDone(m, center, r, dup, list, nx, ny);
  }

  /** `Map::getSpectatorsInternal`: appended to the list are the creatures that pass the naive filter,
      each exactly once and nothing else; with `dup` those already on the list are left out. */
  method GetSpectatorsInternal(m: Map, list: seq<Creature>, center: Spot, dup: bool, r: Ranges)
    returns (result: seq<Creature>)
    requires m.Valid() && PlacedRight(m)
    ensures list <= result && NoRepeats(result[|list|..])
    ensures forall c :: c in result[|list|..] <==> c in Population(m) && Wanted(c, center, r, dup, list)
  {
    hide ScanArea, BlockKey, KeyOf, Leading, InRange, Before, NoRepeats, Elements;
    var a := ScanArea(center, r);
    AreaShape(center, r);
    result := list;
    ScanEnds(m, center, r, dup, list, 0);
    NothingGrown(list);
    NextBlock(m, a.startX, a.startY);
    var leafS := m.GetLeaf(a.startX, a.startY);
    var ny := a.startY;
    while ny <= a.endY
      invariant ny % FLOOR_SIZE == 0 && a.startY <= ny
      invariant ny <= a.endY ==> leafS == m.Lookup(BlockKey(a.startX, ny))
      invariant Grown(list, result, WantedBefore(m, center, r, dup, list, a.startX, ny))
      decreases a.endY + FLOOR_SIZE - ny
    {
      result := ScanRow(m, leafS, result, center, dup, r, list, ny);
      NextBlock(m, a.startX, ny);
      if leafS != null {
        leafS := leafS.leafS;
      } else {
        leafS := m.GetLeaf(a.startX, (ny + FLOOR_SIZE) % COORDS);
      }
      ny := ny + FLOOR_SIZE;
    }
    ScanEnds(m, center, r, dup, list, ny);
    GrownIs(list, result, set c | c in Population(m) && Wanted(c, center, r, dup, list));
  }
}
