/** The line-of-sight ray `Map::checkSightLine` and `Map::isSightClear` (font/map.cpp): an incremental
    integer walk, proved against the digital line it is meant to draw. */
module SightLine {
  import opened Arithmetic

  datatype Pos3 = Pos3(x: int, y: int, z: int)

  /** The tiles of the map; the value tells whether the tile blocks projectiles. */
  type TileMap = map<Pos3, bool>

  function Sign(a: int, b: int): int { if a < b then 1 else -1 }

  // ----- the digital line

  function Span(a: Pos3, b: Pos3): nat {
    Max(Abs(a.x - b.x), Max(Abs(a.y - b.y), Abs(a.z - b.z)))
  }

  /** `k * d / D` rounded to the nearest integer, halves upwards. */
  function Round(k: nat, d: nat, D: nat): nat {
    if D == 0 then 0 else (2 * k * d + D) / (2 * D)
  }

  function Along(a: int, b: int, k: nat, D: nat): int {
    a + Sign(a, b) * Round(k, Abs(a - b), D)
  }

  /** The point of the line after `k` of its `Span` steps. */
  function RayPoint(a: Pos3, b: Pos3, k: nat): Pos3 {
    var D := Span(a, b);
    Pos3(Along(a.x, b.x, k, D), Along(a.y, b.y, k, D), Along(a.z, b.z, k, D))
  }

  /** `n` steps on the minor axis are within half a step of the true line, halves rounded up. */
  predicate Nearest(k: nat, d: nat, D: nat, n: int) { 0 <= 2 * (k * d - D * n) + D < 2 * D }

  lemma {:induction false} RoundUnique(k: nat, d: nat, D: nat, n: int)
    requires D > 0 && Nearest(k, d, D, n)
    ensures Round(k, d, D) == n
  {
    var num, r := 2 * k * d + D, 2 * (k * d - D * n) + D;
    assert num == (2 * D) * n + r by {
      assert (2 * D) * n == 2 * (D * n) && 2 * k * d == 2 * (k * d);
    }
    DivUnique(num, 2 * D, n, r);
  }

  /** The rounding error of the minor axis stays within half a step. */
  lemma {:induction false} RoundError(k: nat, d: nat, D: nat)
    requires D > 0
    ensures Nearest(k, d, D, Round(k, d, D))
  {
    var num := 2 * k * d + D;
    var n := num / (2 * D);
    assert num == (2 * D) * n + num % (2 * D);
    assert (2 * D) * n == 2 * (D * n) && 2 * k * d == 2 * (k * d);
  }

  lemma {:induction false} RoundEnds(d: nat, D: nat)
    requires D > 0
    ensures Round(0, d, D) == 0 && Round(D, d, D) == d
  {
    assert D * d - D * d == 0;
    RoundUnique(D, d, D, d);
    if D > 0 { RoundUnique(0, d, D, 0); }
  }

  lemma {:induction false} RoundDominant(k: nat, D: nat)
    requires D > 0
    ensures Round(k, D, D) == k
  {
    assert k * D - D * k == 0;
    RoundUnique(k, D, D, k);
  }

  /** One turn of the loop: add the minor span to the error, and step when it reaches half. */
  lemma {:induction false} RoundStep(k: nat, d: nat, D: nat, e: int)
    requires D > 0 && d <= D && e == k * d - D * Round(k, d, D)
    ensures var n := Round(k, d, D);
      if 2 * (e + d) >= D then Round(k + 1, d, D) == n + 1 && (k + 1) * d - D * (n + 1) == e + d - D
      else Round(k + 1, d, D) == n && (k + 1) * d - D * n == e + d
  {
    RoundError(k, d, D);
    var n := Round(k, d, D);
    assert (k + 1) * d == k * d + d && D * (n + 1) == D * n + D;
    if 2 * (e + d) >= D {
      RoundUnique(k + 1, d, D, n + 1);
    } else {
      RoundUnique(k + 1, d, D, n);
    }
  }

  lemma {:induction false} RoundBounded(k: nat, d: nat, D: nat)
    requires D > 0 && k <= D
    ensures Round(k, d, D) <= d
  {
    RoundError(k, d, D);
    var n := Round(k, d, D);
    assert k * d <= D * d by { ScaleMonotone(k, D, d); }
    assert D * (n - d) < D by { Spread(D, n, d); }
    ScaleBelow(D, n - d);
  }

  predicate Between(a: int, p: int, b: int) { Min(a, b) <= p <= Max(a, b) }

  /** The line starts at `a`, reaches `b` exactly at its last step, and never leaves their box. */
  lemma {:induction false} RayEnds(a: Pos3, b: Pos3)
    ensures RayPoint(a, b, 0) == a && RayPoint(a, b, Span(a, b)) == b
  {
    var D := Span(a, b);
    if D > 0 {
      RoundEnds(Abs(a.x - b.x), D);
      RoundEnds(Abs(a.y - b.y), D);
      RoundEnds(Abs(a.z - b.z), D);
    }
  }

  lemma {:induction false} RayInBox(a: Pos3, b: Pos3, k: nat)
    requires k <= Span(a, b)
    ensures var p := RayPoint(a, b, k); Between(a.x, p.x, b.x) && Between(a.y, p.y, b.y) && Between(a.z, p.z, b.z)
  {
    var D := Span(a, b);
    if D > 0 {
      RoundBounded(k, Abs(a.x - b.x), D);
      RoundBounded(k, Abs(a.y - b.y), D);
      RoundBounded(k, Abs(a.z - b.z), D);
    }
  }

  /** The reverse line rounds to the same point except exactly at the halves. */
  lemma {:induction false} RoundReversed(k: nat, d: nat, D: nat)
    requires D > 0 && k <= D && d <= D
    ensures Round(D - k, d, D) == d - Round(k, d, D) + (if 2 * (k * d - D * Round(k, d, D)) + D == 0 then 1 else 0)
  {
    RoundError(k, d, D);
    var n := Round(k, d, D);
    var e := k * d - D * n;
    assert (D - k) * d == D * d - k * d;
    var m := d - n + if 2 * e + D == 0 then 1 else 0;
    if 2 * e + D == 0 {
      assert D * m == D * d - D * n + D;
    } else {
      assert D * m == D * d - D * n;
    }
    RoundUnique(D - k, d, D, m);
  }

  // ----- what a clear line means

  /** Which axis the loop runs along: 0 for x, 1 for y, 2 for z; ties go to the smaller number. */
  function Axis(a: Pos3, b: Pos3): nat {
    var dx, dy, dz := Abs(a.x - b.x), Abs(a.y - b.y), Abs(a.z - b.z);
    if dz > Max(dx, dy) then 2 else if dy > dx then 1 else 0
  }

  /** Exchanges the x axis with the given one; doing it twice changes nothing. */
  function Swap(axis: nat, p: Pos3): Pos3 {
    if axis == 1 then Pos3(p.y, p.x, p.z) else if axis == 2 then Pos3(p.z, p.y, p.x) else p
  }

  predicate Blocks(m: TileMap, p: Pos3) { p in m && m[p] }

  /** Whether the `k`-th point lets the ray pass: the point itself, and, when the ray changes floor
      there, the tile under or over the previous point. Before the first point the original compares
      with the start in swapped coordinates, which matters only when the floors differ. */
  predicate StepClear(m: TileMap, a: Pos3, b: Pos3, k: nat) { Passes(m, LastPoint(a, b, k), RayPoint(a, b, k)) }

  function LastPoint(a: Pos3, b: Pos3, k: nat): Pos3 {
    if k <= 1 then Swap(Axis(a, b), a) else RayPoint(a, b, k - 1)
  }

  /** The two checks the loop makes before it moves on from `last` to `p`. */
  predicate Passes(m: TileMap, last: Pos3, p: Pos3) {
    && (last.z != p.z ==> Pos3(last.x, last.y, Min(last.z, p.z)) !in m)
    && !Blocks(m, p)
  }

  /** The first floor change is looked for over the start itself exactly when the line runs along x, or when
      the exchanged coordinates of the start happen to be equal. */
  lemma {:induction false} FirstCheckAtStart(a: Pos3, b: Pos3)
    ensures var dx, dy, dz := Abs(a.x - b.x), Abs(a.y - b.y), Abs(a.z - b.z);
      LastPoint(a, b, 1) == a <==>
        || (dx >= dy && dx >= dz)
        || (dy > dx && dy >= dz && a.x == a.y)
        || (dz > dx && dz > dy && a.x == a.z)
  {
  }

  ghost predicate LineClear(m: TileMap, a: Pos3, b: Pos3) {
    forall k: nat :: 0 < k < Span(a, b) ==> StepClear(m, a, b, k)
  }

  lemma {:induction false} SwapRay(axis: nat, a: Pos3, b: Pos3, k: nat)
    ensures RayPoint(Swap(axis, a), Swap(axis, b), k) == Swap(axis, RayPoint(a, b, k))
    ensures Swap(axis, Swap(axis, a)) == a && Span(Swap(axis, a), Swap(axis, b)) == Span(a, b)
  {
  }

  /** Points strictly inside the line are neither end of it. */
  lemma {:induction false} RayInner(a: Pos3, b: Pos3, k: nat)
    requires 0 < k < Span(a, b) && Span(a, b) == Abs(a.x - b.x)
    ensures RayPoint(a, b, k).x != a.x && RayPoint(a, b, k).x != b.x
  {
    RoundDominant(k, Span(a, b));
  }

  /** On one floor no floor change is ever looked at: only blocking tiles count. */
  lemma {:induction false} SameFloorStep(m: TileMap, a: Pos3, b: Pos3, k: nat)
    requires a.z == b.z && 0 < k < Span(a, b)
    ensures StepClear(m, a, b, k) <==> !Blocks(m, RayPoint(a, b, k))
  {
    var D := Span(a, b);
    RoundUnique(k, 0, D, 0);
    RoundUnique(k - 1, 0, D, 0);
  }

  /** The loop variables after `k` steps, in swapped coordinates: the point and both error terms. */
  ghost predicate OnLine(start: Pos3, end: Pos3, k: nat, p: Pos3, ey: int, ez: int) {
    var D, dy, dz := Abs(start.x - end.x), Abs(start.y - end.y), Abs(start.z - end.z);
    p == RayPoint(start, end, k) && ey == k * dy - D * Round(k, dy, D) && ez == k * dz - D * Round(k, dz, D)
  }

  lemma {:induction false} StartOnLine(start: Pos3, end: Pos3)
    ensures OnLine(start, end, 0, start, 0, 0)
  {
    RayEnds(start, end);
    var D, dy, dz := Abs(start.x - end.x), Abs(start.y - end.y), Abs(start.z - end.z);
    if D > 0 {
      RoundEnds(dy, D);
      RoundEnds(dz, D);
    }
  }

  lemma {:induction false} NextOnLine(start: Pos3, end: Pos3, k: nat, p: Pos3, ey: int, ez: int)
    requires OnLine(start, end, k, p, ey, ez) && Span(start, end) == Abs(start.x - end.x) && k < Span(start, end)
    ensures var D, dy, dz := Abs(start.x - end.x), Abs(start.y - end.y), Abs(start.z - end.z);
      var stepY, stepZ := 2 * (ey + dy) >= D, 2 * (ez + dz) >= D;
      OnLine(start, end, k + 1,
             Pos3(p.x + Sign(start.x, end.x),
                  if stepY then p.y + Sign(start.y, end.y) else p.y,
                  if stepZ then p.z + Sign(start.z, end.z) else p.z),
             if stepY then ey + dy - D else ey + dy,
             if stepZ then ez + dz - D else ez + dz)
  {
    var D, dy, dz := Abs(start.x - end.x), Abs(start.y - end.y), Abs(start.z - end.z);
    RoundDominant(k, D);
    RoundDominant(k + 1, D);
    RoundStep(k, dy, D, ey);
    RoundStep(k, dz, D, ez);
  }

  /** Swapped back, the loop's points are those of the line, and only the inner ones are examined. */
  lemma {:induction false} Visit(a: Pos3, b: Pos3, k: nat)
    requires k <= Span(a, b)
    ensures var axis := Axis(a, b); var r := Swap(axis, RayPoint(Swap(axis, a), Swap(axis, b), k));
      && r == RayPoint(a, b, k)
      && (r != a && r != b <==> 0 < k < Span(a, b))
  {
    var axis := Axis(a, b);
    SwapRay(axis, a, b, k);
    SwapRay(axis, RayPoint(a, b, k), b, 0);
    RayEnds(a, b);
    if 0 < k < Span(a, b) { RayInner(Swap(axis, a), Swap(axis, b), k); }
  }

  lemma {:induction false} SwappedSpan(a: Pos3, b: Pos3)
    ensures var s, e := Swap(Axis(a, b), a), Swap(Axis(a, b), b);
      Span(a, b) == Span(s, e) == Abs(s.x - e.x) && e.x == s.x + Sign(s.x, e.x) * Span(a, b)
  {
  }

  /** The state of the loop after `k` turns: the points so far let the ray pass. */
  ghost predicate Scanning(m: TileMap, a: Pos3, b: Pos3, k: nat, p: Pos3, ey: int, ez: int, last: Pos3) {
    var D := Span(a, b);
    var start, end := Swap(Axis(a, b), a), Swap(Axis(a, b), b);
    && k <= D + 1 && p.x == start.x + Sign(start.x, end.x) * k
    && (k <= D ==> OnLine(start, end, k, p, ey, ez) && last == LastPoint(a, b, k))
    && (forall j: nat :: 0 < j < k && j < D ==> StepClear(m, a, b, j))
  }

  /** What one turn of the loop makes of its variables. */
  lemma {:induction false} Turn(m: TileMap, a: Pos3, b: Pos3, k: nat, p: Pos3, ey: int, ez: int, last: Pos3)
    requires Scanning(m, a, b, k, p, ey, ez, last) && k <= Span(a, b)
    ensures var axis := Axis(a, b); var s, e := Swap(axis, a), Swap(axis, b);
      var dx, dy, dz := Abs(s.x - e.x), Abs(s.y - e.y), Abs(s.z - e.z);
      var stepY, stepZ := 2 * (ey + dy) >= dx, 2 * (ez + dz) >= dx;
      var r := Swap(axis, p);
      var inner := r != b && r != a;
      if inner && !Passes(m, last, r) then !LineClear(m, a, b)
      else Scanning(m, a, b, k + 1,
                    Pos3(p.x + Sign(s.x, e.x),
                         if stepY then p.y + Sign(s.y, e.y) else p.y,
                         if stepZ then p.z + Sign(s.z, e.z) else p.z),
                    if stepY then ey + dy - dx else ey + dy,
                    if stepZ then ez + dz - dx else ez + dz,
                    if inner then r else last)
  {
    hide Axis, Swap, Span, RayPoint, Passes, Round;
    var s, e := Swap(Axis(a, b), a), Swap(Axis(a, b), b);
    SwappedSpan(a, b);
    Visit(a, b, k);
    assert StepClear(m, a, b, k) == Passes(m, last, RayPoint(a, b, k));
    if k < Span(a, b) { NextOnLine(s, e, k, p, ey, ez); }
  }

  lemma {:induction false} StartScanning(m: TileMap, a: Pos3, b: Pos3)
    ensures var start := Swap(Axis(a, b), a); Scanning(m, a, b, 0, start, 0, 0, start)
  {
    StartOnLine(Swap(Axis(a, b), a), Swap(Axis(a, b), b));
  }

  /** The loop's guard tells how far it has come. */
  lemma {:induction false} Guard(m: TileMap, a: Pos3, b: Pos3, k: nat, p: Pos3, ey: int, ez: int, last: Pos3)
    requires Scanning(m, a, b, k, p, ey, ez, last)
    ensures var s, e := Swap(Axis(a, b), a), Swap(Axis(a, b), b);
      if p.x != e.x + Sign(s.x, e.x) then k <= Span(a, b) else LineClear(m, a, b)
  {
    SwappedSpan(a, b);
  }

  /** `Map::checkSightLine`: true exactly when every inner point of the line lets the ray pass. */
  method CheckSightLine(m: TileMap, fromPos: Pos3, toPos: Pos3) returns (clear: bool)
    ensures clear <==> LineClear(m, fromPos, toPos)
  {
    hide Scanning, LineClear, RayPoint, Axis, Swap, Span;
    var dir := Axis(fromPos, toPos);
    var start, end := Swap(dir, fromPos), Swap(dir, toPos);
    var dx, dy, dz := Abs(start.x - end.x), Abs(start.y - end.y), Abs(start.z - end.z);
    var sx, sy, sz := Sign(start.x, end.x), Sign(start.y, end.y), Sign(start.z, end.z);
    var ey: int, ez: int := 0, 0;
    var x: int, y: int, z: int := start.x, start.y, start.z;
    var last := start;
    ghost var k: nat := 0;
    StartScanning(m, fromPos, toPos);
    Guard(m, fromPos, toPos, k, start, ey, ez, last);
    while x != end.x + sx
      invariant Scanning(m, fromPos, toPos, k, Pos3(x, y, z), ey, ez, last)
      invariant if x != end.x + sx then k <= Span(fromPos, toPos) else LineClear(m, fromPos, toPos)
      decreases Span(fromPos, toPos) + 1 - k
    {
      Turn(m, fromPos, toPos, k, Pos3(x, y, z), ey, ez, last);
      var r := Swap(dir, Pos3(x, y, z));
      if r != toPos && r != fromPos {
        if last.z != r.z && Pos3(last.x, last.y, Min(last.z, r.z)) in m {
          return false;
        }
        if Blocks(m, r) {
          return false;
        }
        last := r;
      }
      ey, ez := ey + dy, ez + dz;
      if 2 * ey >= dx { y, ey := y + sy, ey - dx; }
      if 2 * ez >= dx { z, ez := z + sz, ez - dx; }
      x, k := x + sx, k + 1;
      Guard(m, fromPos, toPos, k, Pos3(x, y, z), ey, ez, last);
    }
    return true;
  }

  /** On one floor a line is clear exactly when no inner point of it blocks projectiles. */
  lemma {:induction false} SameFloorLine(m: TileMap, a: Pos3, b: Pos3)
    requires a.z == b.z
    ensures LineClear(m, a, b) <==> forall k: nat :: 0 < k < Span(a, b) ==> !Blocks(m, RayPoint(a, b, k))
  {
    forall k: nat | 0 < k < Span(a, b)
      ensures StepClear(m, a, b, k) <==> !Blocks(m, RayPoint(a, b, k))
    {
      SameFloorStep(m, a, b, k);
    }
  }

  /** Whether the line's `k`-th step lies exactly between two points on some axis. */
  predicate HalfWay(a: Pos3, b: Pos3, k: nat)
    requires 0 < Span(a, b)
  {
    var D := Span(a, b);
    Halved(k, Abs(a.x - b.x), D) || Halved(k, Abs(a.y - b.y), D) || Halved(k, Abs(a.z - b.z), D)
  }

  /** `k * d / D` is a whole number and a half. */
  predicate Halved(k: nat, d: nat, D: nat)
    requires D > 0
  {
    (2 * k * d + D) % (2 * D) == 0
  }

  lemma {:induction false} HalvedMeans(k: nat, d: nat, D: nat)
    requires D > 0
    ensures Halved(k, d, D) <==> 2 * (k * d - D * Round(k, d, D)) + D == 0
  {
    var num := 2 * k * d + D;
    var n := num / (2 * D);
    assert num == (2 * D) * n + num % (2 * D);
    assert (2 * D) * n == 2 * (D * n) && 2 * k * d == 2 * (k * d);
  }

  lemma {:induction false} OddNeverHalved(k: nat, d: nat, D: nat)
    requires D % 2 == 1
    ensures !Halved(k, d, D)
  {
    HalvedMeans(k, d, D);
  }

  lemma {:induction false} AlongReversed(a: int, b: int, k: nat, D: nat)
    requires D > 0 && k <= D && Abs(a - b) <= D
    ensures Along(b, a, D - k, D) == Along(a, b, k, D)
      <==> !Halved(k, Abs(a - b), D)
  {
    HalvedMeans(k, Abs(a - b), D);
    hide Halved;
    RoundReversed(k, Abs(a - b), D);
    if a == b {
      assert k * 0 == 0;
      RoundUnique(k, 0, D, 0);
    }
  }

  /** The two converging rays pass the same point at a step unless it lies half-way between two. */
  lemma {:induction false} RaysMeet(a: Pos3, b: Pos3, k: nat)
    requires 0 < Span(a, b) && k <= Span(a, b)
    ensures RayPoint(b, a, Span(a, b) - k) == RayPoint(a, b, k) <==> !HalfWay(a, b, k)
  {
    var D := Span(a, b);
    hide Halved, Along;
    AlongReversed(a.x, b.x, k, D);
    AlongReversed(a.y, b.y, k, D);
    AlongReversed(a.z, b.z, k, D);
  }

  /** With an odd span no step is half-way, so on one floor both directions give the same answer. */
  lemma {:induction false} OddSpanSymmetric(m: TileMap, a: Pos3, b: Pos3)
    requires a.z == b.z && Span(a, b) % 2 == 1
    ensures LineClear(m, a, b) <==> LineClear(m, b, a)
  {
    SameFloorLine(m, a, b);
    SameFloorLine(m, b, a);
    var D := Span(a, b);
    forall k: nat | 0 < k < D
      ensures RayPoint(b, a, D - k) == RayPoint(a, b, k)
    {
      RaysMeet(a, b, k);
      OddNeverHalved(k, Abs(a.x - b.x), D);
      OddNeverHalved(k, Abs(a.y - b.y), D);
      OddNeverHalved(k, Abs(a.z - b.z), D);
    }
    if LineClear(m, a, b) {
      forall k: nat | 0 < k < D
        ensures !Blocks(m, RayPoint(b, a, k))
      {
        assert RayPoint(b, a, D - (D - k)) == RayPoint(a, b, D - k);
      }
    }
    if LineClear(m, b, a) {
      forall k: nat | 0 < k < D
        ensures !Blocks(m, RayPoint(a, b, k))
      {
        assert RayPoint(b, a, D - k) == RayPoint(a, b, k);
      }
    }
  }

  /** `Map::isSightClear`: either of the two converging rays suffices. */
  method IsSightClear(m: TileMap, fromPos: Pos3, toPos: Pos3, floorCheck: bool) returns (clear: bool)
    ensures clear <==>
      !(floorCheck && fromPos.z != toPos.z) && (LineClear(m, fromPos, toPos) || LineClear(m, toPos, fromPos))
  {
    if floorCheck && fromPos.z != toPos.z {
      return false;
    }
    clear := CheckSightLine(m, fromPos, toPos);
    if !clear {
      clear := CheckSightLine(m, toPos, fromPos);
    }
  }
}
