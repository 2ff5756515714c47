/**
 The local rules of the falling-sand automaton, stated over the grid as a
 sequence of cell kinds: the grid geometry, which kinds are solid, the disc and
 ring shapes of the brush and of explosions, the cell each moving kind swaps
 with, and the order in which a row is scanned.
 */
module PowderRules {
  import opened JsRuntime

  const W := 160
  const H := 96
  const N := W * H

  /** Cell kinds 0..7 of the source, in order. */
  datatype Kind = Empty | Sand | Water | Wall | Bomb | Fire | Oil | Gunpowder

  /** An element of a `Uint8Array` (fire lifetimes) and of a `Uint16Array` (bomb fuses). */
  type U8 = x: int | 0 <= x < 0x100
  type U16 = x: int | 0 <= x < 0x1_0000

  /** Fire lifetimes, fuse lengths and blast radii, in frames and cells. */
  const PaintedFireTtl := 16
  const OilIgnitionTtl := 20
  const SpreadIgnitionTtl := 18
  const ArmedFuse := 18
  const PowderBlast := 4
  const BombBlast := 7
  const SparkFuse := 6
  const SparkTtl := 8

  // ---------------------------------------------------------------------------
  // Geometry

  function Idx(x: int, y: int): int {
    y * W + x
  }

  function Col(j: int): int { j % W }

  function Row(j: int): int { j / W }

  predicate InGrid(x: int, y: int) {
    0 <= x < W && 0 <= y < H
  }

  /** Not on the one-cell border the passes never visit. */
  predicate Interior(x: int, y: int) {
    1 <= x < W - 1 && 1 <= y < H - 1
  }

  lemma IdxCoords(x: int, y: int)
    requires InGrid(x, y)
    ensures 0 <= Idx(x, y) < N
    ensures Col(Idx(x, y)) == x && Row(Idx(x, y)) == y
  {
  }

  lemma CoordsIdx(j: int)
    requires 0 <= j < N
    ensures InGrid(Col(j), Row(j)) && Idx(Col(j), Row(j)) == j
  {
  }

  /** The two-dimensional index is a bijection between the grid's cells and 0..N-1. */
  lemma {:induction false} IdxInjective(x1: int, y1: int, x2: int, y2: int)
    requires InGrid(x1, y1) && InGrid(x2, y2)
    ensures Idx(x1, y1) == Idx(x2, y2) <==> x1 == x2 && y1 == y2
  {
    if Idx(x1, y1) == Idx(x2, y2) {
      IdxCoords(x1, y1);
      IdxCoords(x2, y2);
    }
  }

  /** The 3x3 neighbourhood of an interior cell stays inside the grid. */
  lemma NeighboursInGrid(x: int, y: int)
    requires Interior(x, y)
    ensures W + 1 <= Idx(x, y) && Idx(x, y) + W + 1 < N
  {
  }

  // ---------------------------------------------------------------------------
  // Kinds

  /** What blocks the player: sand, wall, bomb and gunpowder. */
  predicate IsSolid(k: Kind) {
    k == Sand || k == Wall || k == Bomb || k == Gunpowder
  }

  /** Liquids water's sideways spread may pass through. */
  predicate Passable(k: Kind) {
    k == Water || k == Oil
  }

  // ---------------------------------------------------------------------------
  // Shapes

  /** Offset (dx, dy) of the brush square hits (x, y) after clamping into the interior. */
  predicate BrushHit(px: int, py: int, r: int, dx: int, dy: int, x: int, y: int) {
    -r <= dx <= r && -r <= dy <= r && dx * dx + dy * dy <= r * r
    && x == Clamp(px + dx, 1, W - 2) && y == Clamp(py + dy, 1, H - 2)
  }

  /** Cell (x, y) lies in the blast of radius r centred on (cx, cy): inside the disc and not on the border. */
  predicate InBlast(cx: int, cy: int, r: int, x: int, y: int) {
    Interior(x, y) && cx - r <= x <= cx + r && cy - r <= y <= cy + r
    && (x - cx) * (x - cx) + (y - cy) * (y - cy) <= r * r
  }

  /** The outer ring where the blast may leave fire: squared distance above (r - 1.5)^2, scaled by 4. */
  predicate InRing(cx: int, cy: int, r: int, x: int, y: int) {
    4 * ((x - cx) * (x - cx) + (y - cy) * (y - cy)) > (2 * r - 3) * (2 * r - 3)
  }

  /** Some offset of the brush, visited before (dyEnd, dxEnd) in row-major order, hits (x, y). */
  ghost predicate PaintedBefore(px: int, py: int, r: int, dyEnd: int, dxEnd: int, x: int, y: int) {
    exists dx, dy :: BrushHit(px, py, r, dx, dy, x, y) && (dy < dyEnd || (dy == dyEnd && dx < dxEnd))
  }

  /** Some offset of the brush hits (x, y). */
  ghost predicate Painted(px: int, py: int, r: int, x: int, y: int) {
    exists dx, dy :: BrushHit(px, py, r, dx, dy, x, y)
  }

  lemma PaintedNone(px: int, py: int, r: int, start: int)
    requires start == -r
    ensures forall x, y :: !PaintedBefore(px, py, r, start, start, x, y)
  {
  }

  lemma PaintedNext(px: int, py: int, r: int, dy: int, dx: int)
    ensures forall x, y :: (PaintedBefore(px, py, r, dy, dx + 1, x, y)
                            <==> PaintedBefore(px, py, r, dy, dx, x, y) || BrushHit(px, py, r, dx, dy, x, y))
  {
  }

  lemma PaintedNextRow(px: int, py: int, r: int, dy: int, dxEnd: int)
    requires dxEnd > r
    ensures forall x, y :: PaintedBefore(px, py, r, dy, dxEnd, x, y) <==> PaintedBefore(px, py, r, dy + 1, -r, x, y)
  {
  }

  lemma PaintedAll(px: int, py: int, r: int, dyEnd: int)
    requires dyEnd > r
    ensures forall x, y :: PaintedBefore(px, py, r, dyEnd, -r, x, y) <==> Painted(px, py, r, x, y)
  {
  }

  /** The brush never reaches the border: every painted cell is interior. */
  lemma PaintStaysInside(px: int, py: int, r: int, x: int, y: int)
    requires Painted(px, py, r, x, y)
    ensures Interior(x, y)
  {
  }

  /**
   Every interior cell of the disc of radius r around the pointer is painted;
   the clamping only adds cells on the interior's edge.
   */
  lemma PaintCoversDisc(px: int, py: int, r: int, x: int, y: int)
    requires Interior(x, y) && (x - px) * (x - px) + (y - py) * (y - py) <= r * r
    requires -r <= x - px <= r && -r <= y - py <= r
    ensures Painted(px, py, r, x, y)
  {
    assert BrushHit(px, py, r, x - px, y - py, x, y);
  }

  // ---------------------------------------------------------------------------
  // Moves: every move of sand, water, oil and gunpowder exchanges two cells

  function Swap(g: seq<Kind>, i: int, j: int): (r: seq<Kind>)
    requires 0 <= i < |g| && 0 <= j < |g|
    ensures |r| == |g| && r[i] == g[j] && r[j] == g[i]
    ensures forall k :: 0 <= k < |g| && k != i && k != j ==> r[k] == g[k]
    ensures multiset(r) == multiset(g)
  {
    g[i := g[j]][j := g[i]]
  }

  /** The grid after a move: unchanged when there is no target, else the mover swapped into it. */
  function Move(g: seq<Kind>, i: int, t: Option<int>): seq<Kind>
    requires 0 <= i < |g| && (t.Some? ==> 0 <= t.value < |g|)
  {
    if t.None? then g else Swap(g, i, t.value)
  }

  lemma MovePreservesKinds(g: seq<Kind>, i: int, t: Option<int>)
    requires 0 <= i < |g| && (t.Some? ==> 0 <= t.value < |g|)
    ensures |Move(g, i, t)| == |g| && multiset(Move(g, i, t)) == multiset(g)
  {
  }

  /** The two granular kinds: sand sinks through water, gunpowder through water and oil. */
  datatype Grain = SandGrain | PowderGrain

  predicate Displaces(grain: Grain, k: Kind) {
    k == Empty || k == Water || (grain == PowderGrain && k == Oil)
  }

  /**
   Where a grain at interior (x, y) goes: straight down when it can; else the
   diagonal below on the preferred side, then the other diagonal; else nowhere.
   */
  function GrainTarget(g: seq<Kind>, x: int, y: int, grain: Grain, firstLeft: bool): (t: Option<int>)
    requires |g| == N && Interior(x, y)
    ensures t.Some? ==> t.value in {Idx(x, y + 1), Idx(x - 1, y + 1), Idx(x + 1, y + 1)} && Displaces(grain, g[t.value])
    ensures t.None? <==>
      !Displaces(grain, g[Idx(x, y + 1)]) && !Displaces(grain, g[Idx(x - 1, y + 1)]) && !Displaces(grain, g[Idx(x + 1, y + 1)])
    ensures Displaces(grain, g[Idx(x, y + 1)]) ==> t == Some(Idx(x, y + 1))
    ensures !Displaces(grain, g[Idx(x, y + 1)]) && Displaces(grain, g[Idx(if firstLeft then x - 1 else x + 1, y + 1)])
      ==> t == Some(Idx(if firstLeft then x - 1 else x + 1, y + 1))
  {
    var i := Idx(x, y);
    if Displaces(grain, g[i + W]) then Some(i + W)
    else if firstLeft && Displaces(grain, g[i + W - 1]) then Some(i + W - 1)
    else if !firstLeft && Displaces(grain, g[i + W + 1]) then Some(i + W + 1)
    else if Displaces(grain, g[i + W - 1]) then Some(i + W - 1)
    else if Displaces(grain, g[i + W + 1]) then Some(i + W + 1)
    else None
  }

  /** The side the water and oil rules try first: left exactly when x + y + frame is even. */
  function FirstDir(x: int, y: int, frame: int): int {
    if (x + y + frame) % 2 == 0 then -1 else 1
  }

  const MaxSpread := 5

  /** The cell `d` steps from i in direction dir (the flat index, so it may wrap into the next row). */
  function Probe(i: int, dir: int, d: int): int {
    if dir > 0 then i + d else i - d
  }

  /**
   The sideways spread of water from index i, probing distances dist..5 in
   direction dir: the first empty cell, passing only through water and oil.
   */
  function SpreadFrom(g: seq<Kind>, i: int, dir: int, dist: nat): (t: Option<int>)
    requires |g| == N && MaxSpread <= i < N - MaxSpread && 1 <= dist
    ensures t.Some? ==> i - MaxSpread <= t.value <= i + MaxSpread && t.value != i && g[t.value] == Empty
    decreases MaxSpread + 1 - dist
  {
    if dist > MaxSpread then None
    else
      var tc := g[Probe(i, dir, dist)];
      if tc == Empty then Some(Probe(i, dir, dist))
      else if !Passable(tc) then None
      else SpreadFrom(g, i, dir, dist + 1)
  }

  /** Where water spreads from i toward dir, probing up to five cells. */
  function SpreadTarget(g: seq<Kind>, i: int, dir: int): (t: Option<int>)
    requires |g| == N && MaxSpread <= i < N - MaxSpread
  {
    SpreadFrom(g, i, dir, 1)
  }

  /**
   The spread from distance dist on finds the nearest empty cell reached
   through water and oil only, and finds nothing exactly when there is none
   within five cells.
   */
  lemma {:induction false} SpreadFromIsFirstEmpty(g: seq<Kind>, i: int, dir: int, dist: nat)
    requires |g| == N && MaxSpread <= i < N - MaxSpread && 1 <= dist
    ensures var t := SpreadFrom(g, i, dir, dist);
      t.Some? ==> exists d :: (dist <= d <= MaxSpread && t.value == Probe(i, dir, d) && g[t.value] == Empty
                               && forall e :: dist <= e < d ==> Passable(g[Probe(i, dir, e)]))
    ensures var t := SpreadFrom(g, i, dir, dist);
      t.None? ==> forall d :: (dist <= d <= MaxSpread && (forall e :: dist <= e < d ==> Passable(g[Probe(i, dir, e)]))
                               ==> g[Probe(i, dir, d)] != Empty)
    decreases MaxSpread + 1 - dist
  {
    if dist <= MaxSpread {
      var tc := g[Probe(i, dir, dist)];
      if tc != Empty && Passable(tc) {
        SpreadFromIsFirstEmpty(g, i, dir, dist + 1);
        var t := SpreadFrom(g, i, dir, dist);
        if t.Some? {
          var d :| dist + 1 <= d <= MaxSpread && t.value == Probe(i, dir, d) && g[t.value] == Empty
            && forall e :: dist + 1 <= e < d ==> Passable(g[Probe(i, dir, e)]);
          assert forall e :: dist <= e < d ==> Passable(g[Probe(i, dir, e)]);
        } else {
          forall d | dist <= d <= MaxSpread && (forall e :: dist <= e < d ==> Passable(g[Probe(i, dir, e)]))
            ensures g[Probe(i, dir, d)] != Empty
          {
            if d > dist {
              assert forall e :: dist + 1 <= e < d ==> Passable(g[Probe(i, dir, e)]);
            }
          }
        }
      }
    }
  }

  /**
   Where water at interior (x, y) goes: into an empty cell or under oil below;
   else an empty diagonal below, the side given by `FirstDir` first; else
   sideways, spreading first toward that side and then the other.
   */
  function WaterTarget(g: seq<Kind>, x: int, y: int, frame: int): (t: Option<int>)
    requires |g| == N && Interior(x, y)
    ensures t.Some? ==> 0 <= t.value < N && t.value != Idx(x, y)
    ensures t.Some? ==> g[t.value] == Empty || (t.value == Idx(x, y + 1) && g[t.value] == Oil)
    ensures (g[Idx(x, y + 1)] == Empty || g[Idx(x, y + 1)] == Oil) ==> t == Some(Idx(x, y + 1))
  {
    var i := Idx(x, y);
    var dir1 := FirstDir(x, y, frame);
    var dir2 := -dir1;
    if g[i + W] == Empty || g[i + W] == Oil then Some(i + W)
    else if g[i + W + dir1] == Empty then Some(i + W + dir1)
    else if g[i + W + dir2] == Empty then Some(i + W + dir2)
    else
      var first := SpreadTarget(g, i, dir1);
      if first.Some? then first else SpreadTarget(g, i, dir2)
  }

  /**
   Where oil at interior (x, y) goes: into an empty cell or on top of water
   below; else the empty neighbour beside it, the side given by `FirstDir` first.
   */
  function OilTarget(g: seq<Kind>, x: int, y: int, frame: int): (t: Option<int>)
    requires |g| == N && Interior(x, y)
    ensures t.Some? ==> t.value in {Idx(x, y + 1), Idx(x - 1, y), Idx(x + 1, y)}
    ensures t.Some? ==> g[t.value] == Empty || (t.value == Idx(x, y + 1) && g[t.value] == Water)
    ensures t.None? <==>
      g[Idx(x, y + 1)] != Empty && g[Idx(x, y + 1)] != Water && g[Idx(x - 1, y)] != Empty && g[Idx(x + 1, y)] != Empty
  {
    var i := Idx(x, y);
    var dir1 := FirstDir(x, y, frame);
    var dir2 := -dir1;
    if g[i + W] == Empty || g[i + W] == Water then Some(i + W)
    else if g[i + dir1] == Empty then Some(i + dir1)
    else if g[i + dir2] == Empty then Some(i + dir2)
    else None
  }

  /**
   The order in which water tries its targets: the cell below when it is
   empty or oil; else the empty diagonal below on the first side, then on the
   other side; else the spread toward the first side, then toward the other.
   It stays exactly when all of these fail.
   */
  lemma WaterTargetPriority(g: seq<Kind>, x: int, y: int, frame: int)
    requires |g| == N && Interior(x, y)
    ensures var t, d := WaterTarget(g, x, y, frame), FirstDir(x, y, frame);
      var down := g[Idx(x, y + 1)] == Empty || g[Idx(x, y + 1)] == Oil;
      && (!down && g[Idx(x + d, y + 1)] == Empty ==> t == Some(Idx(x + d, y + 1)))
      && (!down && g[Idx(x + d, y + 1)] != Empty && g[Idx(x - d, y + 1)] == Empty ==> t == Some(Idx(x - d, y + 1)))
      && (!down && g[Idx(x + d, y + 1)] != Empty && g[Idx(x - d, y + 1)] != Empty ==>
            t == if SpreadTarget(g, Idx(x, y), d).Some? then SpreadTarget(g, Idx(x, y), d) else SpreadTarget(g, Idx(x, y), -d))
      && (t.None? <==> !down && g[Idx(x + d, y + 1)] != Empty && g[Idx(x - d, y + 1)] != Empty
                       && SpreadTarget(g, Idx(x, y), d).None? && SpreadTarget(g, Idx(x, y), -d).None?)
  {
  }

  /**
   The order in which oil tries its targets: the cell below when it is empty
   or water; else the empty cell beside it on the first side, then on the other.
   */
  lemma OilTargetPriority(g: seq<Kind>, x: int, y: int, frame: int)
    requires |g| == N && Interior(x, y)
    ensures var t, d := OilTarget(g, x, y, frame), FirstDir(x, y, frame);
      var down := g[Idx(x, y + 1)] == Empty || g[Idx(x, y + 1)] == Water;
      && (down ==> t == Some(Idx(x, y + 1)))
      && (!down && g[Idx(x + d, y)] == Empty ==> t == Some(Idx(x + d, y)))
      && (!down && g[Idx(x + d, y)] != Empty && g[Idx(x - d, y)] == Empty ==> t == Some(Idx(x - d, y)))
  {
  }

  /** A spread never moves water further than five cells, nor across anything but water and oil. */
  lemma {:induction false} SpreadIsBounded(g: seq<Kind>, i: int, dir: int, t: int)
    requires |g| == N && MaxSpread <= i < N - MaxSpread
    requires SpreadTarget(g, i, dir) == Some(t)
    ensures 1 <= (if t < i then i - t else t - i) <= MaxSpread
    ensures g[t] == Empty
    ensures forall k :: (if i < k then i < k < t else t < k < i) ==> Passable(g[k])
  {
    SpreadFromIsFirstEmpty(g, i, dir, 1);
    var d :| 1 <= d <= MaxSpread && t == Probe(i, dir, d) && g[t] == Empty
      && forall e :: 1 <= e < d ==> Passable(g[Probe(i, dir, e)]);
    forall k | (if i < k then i < k < t else t < k < i)
      ensures Passable(g[k])
    {
      var e := if i < k then k - i else i - k;
      assert Probe(i, dir, e) == k;
    }
  }

  /** Kinds no move ever displaces or brings: walls, bombs and fire stay where they are. */
  predicate Immobile(k: Kind) {
    k == Wall || k == Bomb || k == Fire
  }

  /**
   g holds the kinds of g0 in another arrangement, with every wall, bomb and
   fire cell where it was and none added.
   */
  predicate Rearranged(g0: seq<Kind>, g: seq<Kind>)
    requires |g0| == N && |g| == N
  {
    multiset(g) == multiset(g0)
    && forall j :: 0 <= j < N ==> (Immobile(g[j]) || Immobile(g0[j])) ==> g[j] == g0[j]
  }

  lemma RearrangedTransitive(a: seq<Kind>, b: seq<Kind>, c: seq<Kind>)
    requires |a| == N && |b| == N && |c| == N
    requires Rearranged(a, b) && Rearranged(b, c)
    ensures Rearranged(a, c)
  {
  }

  predicate FireFree(g: seq<Kind>) {
    forall j :: 0 <= j < |g| ==> g[j] != Fire
  }

  /** No bomb has a running fuse. */
  predicate BombsDisarmed(g: seq<Kind>, f: seq<U16>)
    requires |g| == N && |f| == N
  {
    forall j :: 0 <= j < N ==> g[j] == Bomb ==> f[j] == 0
  }

  /** Rearranging never lights a fire nor moves a bomb away from its fuse. */
  lemma RearrangedKeepsCalm(g0: seq<Kind>, g: seq<Kind>, f: seq<U16>)
    requires |g0| == N && |g| == N && |f| == N && Rearranged(g0, g)
    ensures FireFree(g0) ==> FireFree(g)
    ensures BombsDisarmed(g0, f) ==> BombsDisarmed(g, f)
  {
  }

  /**
   The cell the occupant of interior (x, y) swaps with on its visit, if any:
   sand and gunpowder by `GrainTarget` (sand alternating sides by x + y,
   gunpowder by x + y + frame), water by `WaterTarget` and oil by `OilTarget`.
   No other kind moves; fire has a rule of its own.
   */
  function MoveTarget(g: seq<Kind>, x: int, y: int, frame: int): (t: Option<int>)
    requires |g| == N && Interior(x, y)
    ensures t.Some? ==> 0 <= t.value < N && t.value != Idx(x, y)
    ensures t.Some? ==> g[Idx(x, y)] in {Sand, Water, Oil, Gunpowder} && g[t.value] in {Empty, Water, Oil}
    ensures g[Idx(x, y)] !in {Sand, Water, Oil, Gunpowder} ==> t.None?
  {
    NeighboursInGrid(x, y);
    match g[Idx(x, y)]
    case Sand => GrainTarget(g, x, y, SandGrain, (x + y) % 2 == 0)
    case Water => WaterTarget(g, x, y, frame)
    case Oil => OilTarget(g, x, y, frame)
    case Gunpowder => GrainTarget(g, x, y, PowderGrain, (x + y + frame) % 2 == 0)
    case _ => None
  }

  /**
   A visit by the movement rules is a permutation of the grid's cells that
   keeps every wall, bomb and fire cell in place and creates none.
   */
  lemma {:induction false} MoveConserves(g: seq<Kind>, x: int, y: int, frame: int)
    requires |g| == N && Interior(x, y)
    ensures |Move(g, Idx(x, y), MoveTarget(g, x, y, frame))| == N
    ensures Rearranged(g, Move(g, Idx(x, y), MoveTarget(g, x, y, frame)))
  {
    NeighboursInGrid(x, y);
    MovePreservesKinds(g, Idx(x, y), MoveTarget(g, x, y, frame));
  }

  // ---------------------------------------------------------------------------
  // Fire

  function Max(a: int, b: int): (m: int)
    ensures m >= a && m >= b && (m == a || m == b)
  {
    if a < b then b else a
  }

  /** Some 4-neighbour of interior (x, y) is burning. */
  predicate AdjFire(g: seq<Kind>, x: int, y: int)
    requires |g| == N && Interior(x, y)
  {
    g[Idx(x + 1, y)] == Fire || g[Idx(x - 1, y)] == Fire || g[Idx(x, y + 1)] == Fire || g[Idx(x, y - 1)] == Fire
  }

  /** Setting fire to (x, y) takes effect: an interior cell that is neither a wall nor a bomb. */
  predicate Ignitable(g: seq<Kind>, x: int, y: int)
    requires |g| == N
  {
    Interior(x, y) && g[Idx(x, y)] != Wall && g[Idx(x, y)] != Bomb
  }

  /** What a fire catches when it spreads. */
  predicate Flammable(k: Kind) {
    k == Oil || k == Gunpowder
  }

  /** The two orders in which fire looks at its neighbours: horizontal first, or vertical first. */
  function SpreadDirs(horizontalFirst: bool): (dirs: seq<(int, int)>)
    ensures |dirs| == 4 && forall k :: 0 <= k < 4 ==> -1 <= dirs[k].0 <= 1 && -1 <= dirs[k].1 <= 1
    ensures forall k :: 0 <= k < 4 ==> (dirs[k].0 == 0) != (dirs[k].1 == 0)
  {
    if horizontalFirst then [(1, 0), (-1, 0), (0, 1), (0, -1)] else [(0, 1), (0, -1), (1, 0), (-1, 0)]
  }

  /** The index, from k on, of the first neighbour in `dirs` that is oil or gunpowder. */
  function FirstFlammable(g: seq<Kind>, x: int, y: int, dirs: seq<(int, int)>, k: nat): (r: Option<nat>)
    requires |g| == N && Interior(x, y)
    requires forall e :: 0 <= e < |dirs| ==> -1 <= dirs[e].0 <= 1 && -1 <= dirs[e].1 <= 1
    ensures r.Some? ==> k <= r.value < |dirs| && Flammable(g[Idx(x + dirs[r.value].0, y + dirs[r.value].1)])
    decreases |dirs| - k
  {
    if k >= |dirs| then None
    else if Flammable(g[Idx(x + dirs[k].0, y + dirs[k].1)]) then Some(k)
    else FirstFlammable(g, x, y, dirs, k + 1)
  }

  /** Every neighbour looked at before the one found, or all of them when none is found, is neither oil nor gunpowder. */
  lemma {:induction false} FirstFlammableIsFirst(g: seq<Kind>, x: int, y: int, dirs: seq<(int, int)>, k: nat)
    requires |g| == N && Interior(x, y)
    requires forall e :: 0 <= e < |dirs| ==> -1 <= dirs[e].0 <= 1 && -1 <= dirs[e].1 <= 1
    ensures var r := FirstFlammable(g, x, y, dirs, k);
      r.Some? ==> forall e :: k <= e < r.value ==> !Flammable(g[Idx(x + dirs[e].0, y + dirs[e].1)])
    ensures var r := FirstFlammable(g, x, y, dirs, k);
      r.None? ==> forall e :: k <= e < |dirs| ==> !Flammable(g[Idx(x + dirs[e].0, y + dirs[e].1)])
    decreases |dirs| - k
  {
    if k < |dirs| && !Flammable(g[Idx(x + dirs[k].0, y + dirs[k].1)]) {
      FirstFlammableIsFirst(g, x, y, dirs, k + 1);
    }
  }

  // ---------------------------------------------------------------------------
  // Outcomes of setting fire and of explosions, as relations between the
  // kinds, lifetimes and fuses before (g0, t0, f0) and after (g, t, f)

  /**
   `igniteAt(x, y, ttl)`: an ignitable cell catches fire and keeps the longer
   of its old lifetime and ttl; otherwise, and everywhere else, nothing changes.
   */
  predicate IgnitedFrom(g0: seq<Kind>, t0: seq<U8>, f0: seq<U16>, x: int, y: int, ttl: int,
                        g: seq<Kind>, t: seq<U8>, f: seq<U16>)
    requires |g0| == N && |t0| == N && |f0| == N && 0 <= ttl < 0x100
  {
    f == f0
    && if Ignitable(g0, x, y) then
         g == g0[Idx(x, y) := Fire] && t == t0[Idx(x, y) := Max(t0[Idx(x, y)], ttl)]
       else
         g == g0 && t == t0
  }

  /** Cell j after a blast of radius r centred on (cx, cy): fuse cleared, and either empty or a ring fire of 10 to 19 frames. */
  predicate BlastHit(cx: int, cy: int, r: int, g: seq<Kind>, t: seq<U8>, f: seq<U16>, j: int)
    requires |g| == N && |t| == N && |f| == N && 0 <= j < N
  {
    f[j] == 0
    && ((g[j] == Empty && t[j] == 0)
        || (g[j] == Fire && InRing(cx, cy, r, Col(j), Row(j)) && 10 <= t[j] < 20))
  }

  /** `explode(cx, cy, r)` on the grid: every cell of the blast is hit, every other cell keeps its state. */
  predicate ExplodedFrom(g0: seq<Kind>, t0: seq<U8>, f0: seq<U16>, cx: int, cy: int, r: int,
                         g: seq<Kind>, t: seq<U8>, f: seq<U16>)
    requires |g0| == N && |t0| == N && |f0| == N && |g| == N && |t| == N && |f| == N
  {
    forall j :: 0 <= j < N ==>
      if InBlast(cx, cy, r, Col(j), Row(j)) then BlastHit(cx, cy, r, g, t, f, j)
      else g[j] == g0[j] && t[j] == t0[j] && f[j] == f0[j]
  }

  /** What fire does to a flammable cell (nx, ny) it reaches: oil burns for 18 frames, gunpowder empties and explodes with radius 4. */
  predicate CaughtFrom(g0: seq<Kind>, t0: seq<U8>, f0: seq<U16>, nx: int, ny: int,
                       g: seq<Kind>, t: seq<U8>, f: seq<U16>)
    requires |g0| == N && |t0| == N && |f0| == N && |g| == N && |t| == N && |f| == N && InGrid(nx, ny)
  {
    if g0[Idx(nx, ny)] == Oil then IgnitedFrom(g0, t0, f0, nx, ny, SpreadIgnitionTtl, g, t, f)
    else ExplodedFrom(g0[Idx(nx, ny) := Empty], t0, f0, nx, ny, PowderBlast, g, t, f)
  }

  // ---------------------------------------------------------------------------
  // Scan order

  /** Row y is scanned left to right exactly when y + frame is even. */
  predicate Forward(y: int, frame: int) {
    (y + frame) % 2 == 0
  }

  /** The columns of one row in the order the movement pass visits them. */
  function RowOrder(forward: bool): (cols: seq<int>)
    ensures |cols| == W - 2 && InteriorCols(cols)
  {
    seq(W - 2, k => if forward then 1 + k else W - 2 - k)
  }

  /** The rows of the movement pass, from the bottom: H - 2, H - 3, ..., 1. */
  function PassOrder(): (rows: seq<int>)
    ensures |rows| == H - 2 && forall k :: 0 <= k < |rows| ==> rows[k] == H - 2 - k
  {
    seq(H - 2, k => H - 2 - k)
  }

  /** The first k + 1 rows of the pass: the first k, then row H - 2 - k. */
  lemma PassOrderAt(k: int)
    requires 0 <= k < H - 2
    ensures PassOrder()[..k + 1] == PassOrder()[..k] + [H - 2 - k]
  {
    var s := PassOrder();
    assert s[k] == H - 2 - k;
    assert s[..k + 1] == s[..k] + [s[k]];
  }

  /** The pass visits every interior row exactly once, from the bottom up. */
  lemma PassOrderIsPermutation()
    ensures forall y :: 1 <= y < H - 1 <==> y in PassOrder()
    ensures forall k, l :: 0 <= k < l < |PassOrder()| ==> PassOrder()[k] > PassOrder()[l]
  {
    var s := PassOrder();
    forall y | 1 <= y < H - 1
      ensures y in s
    {
      assert s[H - 2 - y] == y;
    }
  }

  predicate InteriorCols(cols: seq<int>) {
    forall k :: 0 <= k < |cols| ==> 1 <= cols[k] < W - 1
  }

  predicate InteriorRows(rows: seq<int>) {
    forall k :: 0 <= k < |rows| ==> 1 <= rows[k] < H - 1
  }

  /** The first k + 1 columns of a row's scan: the first k, then column number k. */
  lemma RowOrderAt(forward: bool, k: int)
    requires 0 <= k < W - 2
    ensures |RowOrder(forward)| == W - 2
    ensures RowOrder(forward)[..k + 1] == RowOrder(forward)[..k] + [if forward then 1 + k else W - 2 - k]
  {
    var s := RowOrder(forward);
    assert s[k] == if forward then 1 + k else W - 2 - k;
    assert s[..k + 1] == s[..k] + [s[k]];
  }

  /**
   A row's scan visits every interior column exactly once, in increasing order
   when it runs forward and in decreasing order otherwise.
   */
  lemma RowOrderIsPermutation(forward: bool)
    ensures forall x :: 1 <= x < W - 1 <==> x in RowOrder(forward)
    ensures forall k, l :: 0 <= k < l < |RowOrder(forward)| ==> RowOrder(forward)[k] != RowOrder(forward)[l]
    ensures forall k :: 0 <= k < |RowOrder(forward)| - 1 ==>
      if forward then RowOrder(forward)[k] < RowOrder(forward)[k + 1] else RowOrder(forward)[k] > RowOrder(forward)[k + 1]
  {
    var s := RowOrder(forward);
    forall x | 1 <= x < W - 1 ensures x in s {
      var k := if forward then x - 1 else W - 2 - x;
      assert s[k] == x;
    }
  }

  // ---------------------------------------------------------------------------
  // The movement pass over a grid without fire

  /**
   Row y after the movement rules visit the columns cols in that order, each
   visit acting on the grid the previous ones left.
   */
  function RowFold(g: seq<Kind>, y: int, frame: int, cols: seq<int>): (r: seq<Kind>)
    requires |g| == N && 1 <= y < H - 1 && InteriorCols(cols)
    ensures |r| == N
    decreases |cols|
  {
    if cols == [] then g
    else
      var h := RowFold(g, y, frame, cols[..|cols| - 1]);
      var x := cols[|cols| - 1];
      MoveConserves(h, x, y, frame);
      Move(h, Idx(x, y), MoveTarget(h, x, y, frame))
  }

  lemma RowFoldSnoc(g: seq<Kind>, y: int, frame: int, cols: seq<int>, x: int)
    requires |g| == N && 1 <= y < H - 1 && InteriorCols(cols) && 1 <= x < W - 1
    ensures InteriorCols(cols + [x])
    ensures var h := RowFold(g, y, frame, cols);
      RowFold(g, y, frame, cols + [x]) == Move(h, Idx(x, y), MoveTarget(h, x, y, frame))
  {
    assert (cols + [x])[..|cols|] == cols;
  }

  /** The grid after the movement pass visits the rows in rows in that order, each in its scan order. */
  function PassFold(g: seq<Kind>, frame: int, rows: seq<int>): (r: seq<Kind>)
    requires |g| == N && InteriorRows(rows)
    ensures |r| == N
    decreases |rows|
  {
    if rows == [] then g
    else
      var y := rows[|rows| - 1];
      RowFold(PassFold(g, frame, rows[..|rows| - 1]), y, frame, RowOrder(Forward(y, frame)))
  }

  lemma PassFoldSnoc(g: seq<Kind>, frame: int, rows: seq<int>, y: int)
    requires |g| == N && InteriorRows(rows) && 1 <= y < H - 1
    ensures InteriorRows(rows + [y])
    ensures PassFold(g, frame, rows + [y]) == RowFold(PassFold(g, frame, rows), y, frame, RowOrder(Forward(y, frame)))
  {
    assert (rows + [y])[..|rows|] == rows;
  }

  /** Visiting cells of a fire-free grid only rearranges its mobile kinds. */
  lemma {:induction false} RowFoldRearranges(g: seq<Kind>, y: int, frame: int, cols: seq<int>)
    requires |g| == N && 1 <= y < H - 1 && InteriorCols(cols)
    ensures Rearranged(g, RowFold(g, y, frame, cols))
    decreases |cols|
  {
    if cols == [] {
      assert RowFold(g, y, frame, cols) == g;
    } else {
      var h := RowFold(g, y, frame, cols[..|cols| - 1]);
      var x := cols[|cols| - 1];
      RowFoldRearranges(g, y, frame, cols[..|cols| - 1]);
      MoveConserves(h, x, y, frame);
      RearrangedTransitive(g, h, RowFold(g, y, frame, cols));
    }
  }

  /** The whole movement pass over a grid only rearranges its mobile kinds. */
  lemma {:induction false} PassFoldRearranges(g: seq<Kind>, frame: int, rows: seq<int>)
    requires |g| == N && InteriorRows(rows)
    ensures Rearranged(g, PassFold(g, frame, rows))
    decreases |rows|
  {
    if rows == [] {
      assert PassFold(g, frame, rows) == g;
    } else {
      var h := PassFold(g, frame, rows[..|rows| - 1]);
      var y := rows[|rows| - 1];
      PassFoldRearranges(g, frame, rows[..|rows| - 1]);
      RowFoldRearranges(h, y, frame, RowOrder(Forward(y, frame)));
      RearrangedTransitive(g, h, PassFold(g, frame, rows));
    }
  }
}
