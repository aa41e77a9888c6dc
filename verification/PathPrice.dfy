/** What walking costs, counted: 10 for a step along one axis, 25 for a diagonal one, and 30 each for a tile
    entered with a creature on it and for one with a harmful field (font/map.cpp, font/map.h). */
module PathPrice {
  import opened Arithmetic
  import opened AStarNodes
  import opened PathQuery

  // ----- the counts

  function Straight(w: seq<Pos>): nat {
    if |w| <= 1 then 0
    else Straight(w[..|w| - 1]) + if w[|w| - 2].x == w[|w| - 1].x || w[|w| - 2].y == w[|w| - 1].y then 1 else 0
  }

  function Diagonal(w: seq<Pos>): nat {
    if |w| <= 1 then 0
    else Diagonal(w[..|w| - 1]) + if w[|w| - 2].x != w[|w| - 1].x && w[|w| - 2].y != w[|w| - 1].y then 1 else 0
  }

  /** Tiles entered, so all but the first, with a creature on them. */
  function Creatures(tiles: map<Pos, TileInfo>, w: seq<Pos>): nat {
    if |w| <= 1 then 0
    else Creatures(tiles, w[..|w| - 1]) + if w[|w| - 1] in tiles && tiles[w[|w| - 1]].hasCreatures then 1 else 0
  }

  function Fields(tiles: map<Pos, TileInfo>, w: seq<Pos>): nat {
    if |w| <= 1 then 0
    else Fields(tiles, w[..|w| - 1]) + if w[|w| - 1] in tiles && tiles[w[|w| - 1]].harmfulField then 1 else 0
  }

  function Price(tiles: map<Pos, TileInfo>, w: seq<Pos>): nat {
    10 * Straight(w) + 25 * Diagonal(w) + 30 * Creatures(tiles, w) + 30 * Fields(tiles, w)
  }

  /** The same counts for a direction list. */
  function Straights(dirs: seq<Direction>): nat {
    if dirs == [] then 0
    else Straights(dirs[..|dirs| - 1]) + if dirs[|dirs| - 1] in {North, East, South, West} then 1 else 0
  }

  function Diagonals(dirs: seq<Direction>): nat {
    if dirs == [] then 0
    else Diagonals(dirs[..|dirs| - 1]) + if dirs[|dirs| - 1] in {Northwest, Northeast, Southwest, Southeast} then 1 else 0
  }

  // ----- walks taken apart at their end

  lemma {:induction false} NoSeamFront(w: seq<Pos>)
    requires |w| > 1 && CrossesNoSeam(w)
    ensures CrossesNoSeam(w[..|w| - 1]) && !CrossesSeam(w[|w| - 2], w[|w| - 1])
  {
    if |w| > 2 {
      NoSeamFront(w[1..]);
      assert w[1..][..|w| - 2] == w[..|w| - 1][1..];
    }
  }

  lemma {:induction false} LinkedFront(w: seq<Pos>)
    requires |w| > 1 && Linked(w)
    ensures Linked(w[..|w| - 1]) && IsPos(w[|w| - 2]) && Adjacent(w[|w| - 2], w[|w| - 1])
  {
    hide Adjacent;
    if |w| > 2 {
      LinkedFront(w[1..]);
      assert w[1..][..|w| - 2] == w[..|w| - 1][1..];
    }
  }

  lemma {:induction false} DirsFront(w: seq<Pos>)
    requires |w| > 1
    ensures DirsOf(w) == DirsOf(w[..|w| - 1]) + DirStep(w[|w| - 2], w[|w| - 1])
  {
    hide DirStep;
    if |w| > 2 {
      DirsFront(w[1..]);
      assert w[1..][..|w| - 2] == w[..|w| - 1][1..];
    } else {
      assert DirsOf(w[1..]) == [] && DirsOf(w[..1]) == [];
    }
  }

  // ----- what is paid

  /** Where nothing wraps, a straight step costs 10 and a diagonal one 25. */
  lemma {:induction false} StepIsPriced(a: Pos, b: Pos)
    requires IsPos(a) && Adjacent(a, b) && !CrossesSeam(a, b)
    ensures a != b && MapWalkCost(a, b) == if a.x == b.x || a.y == b.y then 10 else 25
  {
    var i: nat :| i < 8 && Neighbour(a, i) == b;
    hide Neighbour;
  }

  /** A diagonal step across one seam only is charged as a straight one: its differences are 65535 and 1. */
  lemma {:induction false} SeamDiagonalIsCheap()
    ensures Neighbour(Pos(0, 5), 4) == Pos(65535, 4) && MapWalkCost(Pos(0, 5), Pos(65535, 4)) == 10
  {
  }

  lemma {:induction false} TileIsPriced(t: TileInfo)
    ensures TileWalkCost(t) == (if t.hasCreatures then 30 else 0) + (if t.harmfulField then 30 else 0)
  {
  }

  /** A walk that crosses no seam costs what its steps and tiles are priced at. */
  lemma {:induction false} CostIsPrice(tiles: map<Pos, TileInfo>, w: seq<Pos>)
    requires Linked(w) && CrossesNoSeam(w)
    ensures Cost(tiles, w) == Price(tiles, w)
  {
    hide CrossesNoSeam, CrossesSeam, Linked, Adjacent, MapWalkCost, TileWalkCost;
    if |w| > 1 {
      var a, b := w[|w| - 2], w[|w| - 1];
      NoSeamFront(w);
      LinkedFront(w);
      CostIsPrice(tiles, w[..|w| - 1]);
      StepIsPriced(a, b);
      if b in tiles { TileIsPriced(tiles[b]); }
    }
  }

  lemma {:induction false} StepIsCounted(a: Pos, b: Pos)
    requires IsPos(a) && Adjacent(a, b) && !CrossesSeam(a, b)
    ensures |DirStep(a, b)| == 1
    ensures DirStep(a, b)[0] in {North, East, South, West} <==> a.x == b.x || a.y == b.y
    ensures DirStep(a, b)[0] in {Northwest, Northeast, Southwest, Southeast} <==> a.x != b.x && a.y != b.y
  {
    StepDirection(a, b);
    hide Adjacent;
  }

  /** The entries of its direction list are its steps. */
  lemma {:induction false} DirectionsCount(w: seq<Pos>)
    requires Linked(w) && CrossesNoSeam(w)
    ensures Straights(DirsOf(w)) == Straight(w) && Diagonals(DirsOf(w)) == Diagonal(w)
  {
    if |w| > 1 {
      var d := DirStep(w[|w| - 2], w[|w| - 1]);
      NoSeamFront(w);
      LinkedFront(w);
      DirsFront(w);
      StepIsCounted(w[|w| - 2], w[|w| - 1]);
      DirectionsCount(w[..|w| - 1]);
      hide DirStep, DirsOf, CrossesNoSeam, Linked;
      var dirs := DirsOf(w[..|w| - 1]);
      assert d == [d[0]] && (dirs + d)[..|dirs + d| - 1] == dirs;
    }
  }
}
