/** What a `getPathMatching` call is asked, and the reference notions its answer is judged by:
    walks from the creature, their cost, and which end tiles are wanted. Nothing here searches. */
module PathQuery {
  import opened Arithmetic
  import opened AStarNodes

  datatype Params = Params(
    fullPathSearch: bool, clearSight: bool, allowDiagonal: bool, keepDistance: bool,
    maxSearchDist: int, minTargetDist: int, maxTargetDist: int)

  /** `tiles` maps each tile the creature may enter (`canWalkTo`) to what makes it costlier;
      `sight` holds the positions with a clear line to the target. */
  datatype Query = Query(start: Pos, target: Pos, tiles: map<Pos, TileInfo>, sight: set<Pos>, fpp: Params)

  // ----- the target condition (font/creature.cpp, FrozenPathingConditionCall)

  predicate ConditionInRange(q: Query, p: Pos) {
    var fpp := q.fpp;
    var dxMin := if fpp.fullPathSearch || q.start.x - q.target.x <= 0 then fpp.maxTargetDist else 0;
    var dxMax := if fpp.fullPathSearch || q.start.x - q.target.x >= 0 then fpp.maxTargetDist else 0;
    var dyMin := if fpp.fullPathSearch || q.start.y - q.target.y <= 0 then fpp.maxTargetDist else 0;
    var dyMax := if fpp.fullPathSearch || q.start.y - q.target.y >= 0 then fpp.maxTargetDist else 0;
    && q.target.x - dxMin <= p.x <= q.target.x + dxMax
    && q.target.y - dyMin <= p.y <= q.target.y + dyMax
  }

  /** On one axis: `p` does not lie beyond the target, seen from the start. */
  predicate NotBeyond(start: int, target: int, p: int) { (start < target ==> p <= target) && (start > target ==> p >= target) }

  /** In range is what is near enough to the target and, unless the search is a full one, not behind it. */
  lemma {:induction false} RangeMeans(q: Query, p: Pos)
    requires q.fpp.maxTargetDist >= 0
    ensures ConditionInRange(q, p) <==>
      && Abs(p.x - q.target.x) <= q.fpp.maxTargetDist && Abs(p.y - q.target.y) <= q.fpp.maxTargetDist
      && (q.fpp.fullPathSearch || (NotBeyond(q.start.x, q.target.x, p.x) && NotBeyond(q.start.y, q.target.y, p.y)))
  {
  }

  function TargetDist(q: Query, p: Pos): nat {
    Max(Abs(q.target.x - p.x), Abs(q.target.y - p.y))
  }

  /** The call operator: whether `p` is accepted, and the best match distance afterwards. */
  function PathCondition(q: Query, p: Pos, best: int): (r: (bool, int)) {
    var fpp := q.fpp;
    var dist := TargetDist(q, p);
    if !ConditionInRange(q, p) then (false, best)
    else if fpp.clearSight && p !in q.sight then (false, best)
    else if fpp.maxTargetDist == 1 then (fpp.minTargetDist <= dist <= fpp.maxTargetDist, best)
    else if dist <= fpp.maxTargetDist then
      if dist < fpp.minTargetDist then (false, best)
      else if dist == fpp.maxTargetDist then (true, 0)
      else if dist > best then (true, dist)
      else (false, best)
    else (false, best)
  }

  /** A tile the creature may end on. */
  predicate Candidate(q: Query, p: Pos) {
    && ConditionInRange(q, p)
    && (q.fpp.clearSight ==> p in q.sight)
    && q.fpp.minTargetDist <= TargetDist(q, p) <= q.fpp.maxTargetDist
  }

  /** A tile that ends the search at once. */
  predicate Exact(q: Query, p: Pos) {
    Candidate(q, p) && (q.fpp.maxTargetDist == 1 || TargetDist(q, p) == q.fpp.maxTargetDist)
  }

  /** A tile that is taken only while nothing farther from the target is known. */
  predicate Partial(q: Query, p: Pos) {
    Candidate(q, p) && !Exact(q, p) && TargetDist(q, p) > 0
  }

  /** The stateful condition call, read against the three notions above. */
  lemma {:induction false} PathConditionMeaning(q: Query, p: Pos, best: nat)
    requires q.fpp.maxTargetDist == 1 ==> best == 0
    ensures var (accepted, best') := PathCondition(q, p, best);
      && (accepted && best' == 0 <==> Exact(q, p))
      && (accepted && best' > 0 <==> Partial(q, p) && TargetDist(q, p) > best)
      && (accepted && best' > 0 ==> best' == TargetDist(q, p))
      && (!accepted ==> best' == best)
  {
  }

  // ----- walks

  predicate InSearchRange(q: Query, p: Pos) {
    && (q.fpp.maxSearchDist != -1 ==>
          Abs(q.start.x - p.x) <= q.fpp.maxSearchDist && Abs(q.start.y - p.y) <= q.fpp.maxSearchDist)
    && (q.fpp.keepDistance ==> ConditionInRange(q, p))
  }

  predicate CanEnter(q: Query, p: Pos) { InSearchRange(q, p) && p in q.tiles }

  function DirCount(q: Query): nat { if q.fpp.allowDiagonal then 8 else 4 }

  predicate Step(q: Query, a: Pos, b: Pos) {
    CanEnter(q, b) && exists i: nat :: i < DirCount(q) && Neighbour(a, i) == b
  }

  function StepCost(tiles: map<Pos, TileInfo>, a: Pos, b: Pos): (c: nat)
    ensures 10 <= c <= 85
  {
    MapWalkCost(a, b) + if b in tiles then TileWalkCost(tiles[b]) else 0
  }

  predicate IsWalk(q: Query, w: seq<Pos>) {
    if |w| <= 1 then w == [q.start]
    else IsWalk(q, w[..|w| - 1]) && Step(q, w[|w| - 2], w[|w| - 1])
  }

  function Cost(tiles: map<Pos, TileInfo>, w: seq<Pos>): nat {
    if |w| <= 1 then 0
    else Cost(tiles, w[..|w| - 1]) + StepCost(tiles, w[|w| - 2], w[|w| - 1])
  }

  ghost predicate WalkTo(q: Query, w: seq<Pos>, p: Pos) {
    IsWalk(q, w) && w[|w| - 1] == p
  }

  /** No walk to `p` is cheaper than `c`. */
  ghost predicate NoCheaper(q: Query, p: Pos, c: int) {
    forall w :: WalkTo(q, w, p) ==> c <= Cost(q.tiles, w)
  }

  lemma {:induction false} ExtendWalk(q: Query, w: seq<Pos>, p: Pos)
    requires IsWalk(q, w) && Step(q, w[|w| - 1], p)
    ensures WalkTo(q, w + [p], p)
    ensures Cost(q.tiles, w + [p]) == Cost(q.tiles, w) + StepCost(q.tiles, w[|w| - 1], p)
  {
    assert (w + [p])[..|w|] == w;
  }

  /** The place of an offset in the neighbour order. */
  function DirectionOf(x: int, y: int): (e: nat)
    requires -1 <= x <= 1 && -1 <= y <= 1 && (x != 0 || y != 0)
    ensures e < 8 && NEIGHBOURS[e] == (x, y)
  {
    if y == 0 then (if x == -1 then 0 else 2)
    else if x == 0 then (if y == 1 then 1 else 3)
    else if y == -1 then (if x == -1 then 4 else 5)
    else (if x == 1 then 6 else 7)
  }

  // ----- the direction list

  /** What the rebuild loop pushes for one step of the path: nothing when no branch matches. */
  function DirStep(parent: Pos, child: Pos): seq<Direction> {
    var dx, dy := parent.x - child.x, parent.y - child.y;
    if dx == 1 && dy == 1 then [Northwest]
    else if dx == -1 && dy == 1 then [Northeast]
    else if dx == 1 && dy == -1 then [Southwest]
    else if dx == -1 && dy == -1 then [Southeast]
    else if dx == 1 then [West]
    else if dx == -1 then [East]
    else if dy == 1 then [North]
    else if dy == -1 then [South]
    else []
  }

  function DirsOf(w: seq<Pos>): seq<Direction> {
    if |w| <= 1 then [] else DirStep(w[0], w[1]) + DirsOf(w[1..])
  }

  /** Where one step in a direction leads. */
  function Move(p: Pos, d: Direction): Pos {
    match d
    case North => Pos(p.x, Wrap(p.y - 1))
    case South => Pos(p.x, Wrap(p.y + 1))
    case West => Pos(Wrap(p.x - 1), p.y)
    case East => Pos(Wrap(p.x + 1), p.y)
    case Northwest => Pos(Wrap(p.x - 1), Wrap(p.y - 1))
    case Northeast => Pos(Wrap(p.x + 1), Wrap(p.y - 1))
    case Southwest => Pos(Wrap(p.x - 1), Wrap(p.y + 1))
    case Southeast => Pos(Wrap(p.x + 1), Wrap(p.y + 1))
  }

  /** The positions a creature passes when it follows a direction list. */
  function Replay(p: Pos, dirs: seq<Direction>): (w: seq<Pos>)
    ensures |w| == |dirs| + 1 && w[0] == p
    decreases dirs
  {
    if dirs == [] then [p] else [p] + Replay(Move(p, dirs[0]), dirs[1..])
  }

  /** Whether going from `a` to `b` crosses the place where 16-bit coordinates wrap. */
  predicate CrossesSeam(a: Pos, b: Pos) { Abs(a.x - b.x) > 1 || Abs(a.y - b.y) > 1 }

  predicate CrossesNoSeam(w: seq<Pos>) {
    |w| <= 1 || (!CrossesSeam(w[0], w[1]) && CrossesNoSeam(w[1..]))
  }

  /** The pushed direction leads from parent to child exactly when the step does not wrap. */
  lemma {:induction false} DirStepRight(a: Pos, i: nat)
    requires IsPos(a) && i < 8
    ensures var b := Neighbour(a, i);
      (|DirStep(a, b)| == 1 && Move(a, DirStep(a, b)[0]) == b) <==> !CrossesSeam(a, b)
  {
  }

  predicate Adjacent(a: Pos, b: Pos) {
    exists i: nat :: i < 8 && Neighbour(a, i) == b
  }

  /** Positions of which each is a neighbour of the one before, read from the first. */
  predicate Linked(w: seq<Pos>) {
    |w| > 0 && IsPos(w[0]) && (|w| > 1 ==> Adjacent(w[0], w[1]) && Linked(w[1..]))
  }

  lemma {:induction false} LinkedSnoc(w: seq<Pos>, p: Pos)
    requires Linked(w) && Adjacent(w[|w| - 1], p)
    ensures Linked(w + [p])
  {
    if |w| == 1 {
      assert (w + [p])[1..] == [p];
    } else {
      LinkedSnoc(w[1..], p);
      assert (w + [p])[1..] == w[1..] + [p];
    }
  }

  lemma {:induction false} WalkLinked(q: Query, w: seq<Pos>)
    requires IsPos(q.start) && IsWalk(q, w)
    ensures w[0] == q.start && Linked(w)
  {
    if |w| > 1 {
      var v := w[..|w| - 1];
      WalkLinked(q, v);
      LinkedSnoc(v, w[|w| - 1]);
      assert v + [w[|w| - 1]] == w;
    }
  }

  lemma {:induction false} StepDirection(a: Pos, b: Pos)
    requires IsPos(a) && Adjacent(a, b)
    ensures |DirStep(a, b)| == 1 && Move(a, DirStep(a, b)[0]) == b <==> !CrossesSeam(a, b)
    ensures |DirStep(a, b)| <= 1
  {
    var i: nat :| i < 8 && Neighbour(a, i) == b;
    DirStepRight(a, i);
  }

  lemma {:induction false} DirsNoLonger(w: seq<Pos>)
    requires |w| > 0
    ensures |DirsOf(w)| <= |w| - 1
  {
    if |w| > 1 { DirsNoLonger(w[1..]); }
  }

  /** The direction list of linked positions replays them if and only if no step wraps around. */
  lemma {:induction false} ReplayDirs(w: seq<Pos>)
    requires Linked(w)
    ensures Replay(w[0], DirsOf(w)) == w <==> CrossesNoSeam(w)
  {
    if |w| > 1 {
      var v := w[1..];
      var d := DirStep(w[0], w[1]);
      StepDirection(w[0], w[1]);
      ReplayDirs(v);
      DirsNoLonger(v);
      if |d| == 1 {
        assert DirsOf(w)[1..] == DirsOf(v);
        assert Replay(w[0], DirsOf(w)) == [w[0]] + Replay(Move(w[0], d[0]), DirsOf(v));
        assert w == [w[0]] + v;
        assert Replay(w[0], DirsOf(w))[1..] == Replay(Move(w[0], d[0]), DirsOf(v));
      } else {
        assert DirsOf(w) == DirsOf(v);
      }
    }
  }

  /** The direction list of a walk replays that walk if and only if no step of it wraps around. */
  lemma {:induction false} WalkReplays(q: Query, w: seq<Pos>)
    requires IsPos(q.start) && IsWalk(q, w)
    ensures Replay(q.start, DirsOf(w)) == w <==> CrossesNoSeam(w)
  {
    WalkLinked(q, w);
    ReplayDirs(w);
  }

  lemma {:induction false} NeighbourApart(a: Pos, i: nat)
    requires IsPos(a) && i < 8
    ensures var b := Neighbour(a, i);
      (Abs(a.x - b.x) <= 1 || Abs(a.x - b.x) == 65535) && (Abs(a.y - b.y) <= 1 || Abs(a.y - b.y) == 65535)
  {
  }

  lemma {:induction false} NearStep(c: Pos, r: int, a: Pos, b: Pos)
    requires r < 32768 && IsPos(a) && Near(c, r, a) && Near(c, r, b) && Adjacent(a, b)
    ensures !CrossesSeam(a, b)
  {
    var i: nat :| i < 8 && Neighbour(a, i) == b;
    NeighbourApart(a, i);
    assert Abs(a.x - b.x) <= 65534 && Abs(a.y - b.y) <= 65534;
  }

  /** Within less than half the coordinate range nothing wraps. */
  lemma {:induction false} LinkedNearby(c: Pos, r: int, w: seq<Pos>)
    requires r < 32768 && Linked(w) && forall p :: p in w ==> Near(c, r, p)
    ensures CrossesNoSeam(w)
  {
    if |w| > 1 {
      NearStep(c, r, w[0], w[1]);
      LinkedNearby(c, r, w[1..]);
    }
  }

  lemma {:induction false} WalkNearby(q: Query, w: seq<Pos>)
    requires IsWalk(q, w) && q.fpp.maxSearchDist >= 0
    ensures forall p :: p in w ==> Near(q.start, q.fpp.maxSearchDist, p)
  {
    if |w| > 1 { WalkNearby(q, w[..|w| - 1]); }
  }

  /** Callers that bound the search distance below half the coordinate range never see a wrap. */
  lemma {:induction false} BoundedSearchNeverWraps(q: Query, w: seq<Pos>)
    requires IsPos(q.start) && 0 <= q.fpp.maxSearchDist < 32768 && IsWalk(q, w)
    ensures CrossesNoSeam(w)
  {
    WalkLinked(q, w);
    WalkNearby(q, w);
    LinkedNearby(q.start, q.fpp.maxSearchDist, w);
  }

  /** At least `r` away from where coordinates wrap. */
  predicate Inland(p: Pos, r: nat) { r <= p.x < COORDS - r && r <= p.y < COORDS - r }

  lemma {:induction false} WrapInside(n: int)
    ensures 0 <= n < COORDS ==> Wrap(n) == n
  {
  }

  lemma {:induction false} InlandStep(a: Pos, b: Pos, r: nat)
    requires Inland(a, r + 1) && Adjacent(a, b)
    ensures Inland(b, r) && !CrossesSeam(a, b)
  {
    var i: nat :| i < 8 && Neighbour(a, i) == b;
    hide Wrap;
    WrapInside(a.x + NEIGHBOURS[i].0);
    WrapInside(a.y + NEIGHBOURS[i].1);
  }

  lemma {:induction false} InlandNeverWraps(w: seq<Pos>, r: nat)
    requires Linked(w) && |w| <= r + 1 && Inland(w[0], r)
    ensures CrossesNoSeam(w)
  {
    if |w| > 1 {
      InlandStep(w[0], w[1], r - 1);
      InlandNeverWraps(w[1..], r - 1);
    }
  }

  /** What a search may enter: tiles within the search distance on both axes, if there is one, and within reach of the
      target, if distance is to be kept. */
  lemma {:induction false} EnterMeans(q: Query, p: Pos)
    ensures CanEnter(q, p) <==>
      && p in q.tiles
      && (q.fpp.maxSearchDist == -1 || Max(Abs(p.x - q.start.x), Abs(p.y - q.start.y)) <= q.fpp.maxSearchDist)
      && (!q.fpp.keepDistance || ConditionInRange(q, p))
  {
  }

  /** A step goes to any of the eight tiles around, or to any of the four beside where it may not go diagonally. */
  lemma {:induction false} StepMeans(q: Query, a: Pos, b: Pos)
    requires Inland(a, 1)
    ensures Step(q, a, b) <==>
      && CanEnter(q, b) && a != b && Abs(a.x - b.x) <= 1 && Abs(a.y - b.y) <= 1
      && (q.fpp.allowDiagonal || a.x == b.x || a.y == b.y)
  {
    hide CanEnter, Wrap;
    var dx, dy := b.x - a.x, b.y - a.y;
    forall i: nat | i < 8
      ensures Neighbour(a, i) == Pos(a.x + NEIGHBOURS[i].0, a.y + NEIGHBOURS[i].1)
    {
      WrapInside(a.x + NEIGHBOURS[i].0);
      WrapInside(a.y + NEIGHBOURS[i].1);
    }
    if a != b && Abs(dx) <= 1 && Abs(dy) <= 1 {
      assert Neighbour(a, DirectionOf(dx, dy)) == b;
    }
  }

  /** Without that, a path may contain a step the direction list loses: from (0, 5) the tile
      (65535, 5) is a neighbour, and no branch of the rebuild loop matches it. */
  function SeamQuery(): Query {
    Query(Pos(0, 5), Pos(65535, 5), map[Pos(65535, 5) := TileInfo(false, false)], {},
          Params(true, false, true, false, -1, 0, 0))
  }

  lemma {:induction false} SeamStepIsLost()
    ensures var q := SeamQuery();
      var w := [q.start, q.target];
      WalkTo(q, w, q.target) && Cost(q.tiles, w) == 10 && Exact(q, q.target) && DirsOf(w) == [] && Replay(q.start, DirsOf(w)) != w
  {
    var q := SeamQuery();
    assert Neighbour(Pos(0, 5), 0) == Pos(65535, 5);
    var w := [q.start, q.target];
    assert w[..1] == [q.start];
    assert DirsOf(w) == [] + DirsOf(w[1..]);
  }

  lemma {:induction false} WalkEndsEnterable(q: Query, w: seq<Pos>)
    requires IsWalk(q, w)
    ensures w[|w| - 1] == q.start || w[|w| - 1] in q.tiles
  {
  }

  lemma {:induction false} CostPerStep(q: Query, w: seq<Pos>)
    requires IsWalk(q, w)
    ensures w[0] == q.start && Cost(q.tiles, w) >= 10 * (|w| - 1)
  {
    if |w| > 1 { CostPerStep(q, w[..|w| - 1]); }
  }
}
