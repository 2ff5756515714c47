/**
 The falling-sand sandbox: a grid of cell kinds with a fire lifetime and a
 bomb fuse per cell, updated in place once per frame by the brush, the
 player's bomb push, an ignition pass, a bottom-up movement pass and a fuse
 pass. Each `Math.random()` draw is a nondeterministic choice, so every
 contract holds whatever the draws are.
 */
module PowderSandbox {
  import opened JsRuntime
  import opened PowderRules

  /** A blocked horizontal move of the player: its direction, the column in front of it and the rows it covers. */
  datatype Push = Push(dir: int, frontX: int, y0: int, y1: int)

  /**
   The push the player at (px, py), of size pw by ph cells, attempts when its
   horizontal move with velocity vx is blocked: none when standing still;
   otherwise the column holding the player's leading edge plus one cell, over
   the rows from the player's top to its bottom.
   */
  function PushOf(px: real, py: real, pw: int, ph: int, vx: real): (p: Option<Push>)
    ensures p.None? <==> vx == 0.0
    ensures p.Some? ==> (p.value.dir == 1 <==> vx > 0.0) && (p.value.dir == -1 <==> vx < 0.0)
    ensures p.Some? && vx > 0.0 ==> p.value.frontX as real <= px + pw as real < p.value.frontX as real + 1.0
    ensures p.Some? && vx < 0.0 ==> p.value.frontX as real <= px - 1.0 < p.value.frontX as real + 1.0
    ensures p.Some? ==> p.value.y0 as real <= py < p.value.y0 as real + 1.0
    ensures p.Some? ==> p.value.y1 as real <= py + ph as real - 1.0 < p.value.y1 as real + 1.0
  {
    if vx == 0.0 then None
    else
      var dir := if vx > 0.0 then 1 else -1;
      var frontX := if dir > 0 then (px + pw as real).Floor else (px - 1.0).Floor;
      Some(Push(dir, frontX, py.Floor, (py + ph as real - 1.0).Floor))
  }

  /** Row yy takes part in push p on grid g: the bomb in front of the player moves into the empty cell beyond it. */
  predicate Pushes(g: seq<Kind>, p: Push, yy: int)
    requires |g| == N && (p.dir == 1 || p.dir == -1)
  {
    p.y0 <= yy <= p.y1 && 1 <= p.frontX < W - 1 && 1 <= yy < H - 1
    && g[Idx(p.frontX, yy)] == Bomb && g[Idx(p.frontX + p.dir, yy)] == Empty
  }

  /** Cell j of kinds g and fuses f once the push p has handled the rows before yEnd, starting from g0 and f0. */
  predicate PushedCell(g0: seq<Kind>, f0: seq<U16>, p: Push, yEnd: int, g: seq<Kind>, f: seq<U16>, j: int)
    requires |g0| == N && |f0| == N && |g| == N && |f| == N && (p.dir == 1 || p.dir == -1) && 0 <= j < N
  {
    var moves := Pushes(g0, p, Row(j)) && Row(j) < yEnd;
    if moves && Col(j) == p.frontX then g[j] == Empty && f[j] == 0
    else if moves && Col(j) == p.frontX + p.dir then g[j] == Bomb && f[j] == f0[Idx(p.frontX, Row(j))]
    else g[j] == g0[j] && f[j] == f0[j]
  }

  predicate PushedBefore(g0: seq<Kind>, f0: seq<U16>, p: Push, yEnd: int, g: seq<Kind>, f: seq<U16>)
    requires |g0| == N && |f0| == N && |g| == N && |f| == N && (p.dir == 1 || p.dir == -1)
  {
    forall j :: 0 <= j < N ==> PushedCell(g0, f0, p, yEnd, g, f, j)
  }

  class Sandbox {
    const grid: array<Kind>
    const fireTtl: array<U8>
    const fuse: array<U16>
    var frame: int

    ghost predicate Valid()
      reads this
    {
      grid.Length == N && fireTtl.Length == N && fuse.Length == N
    }

    /** Every burning cell has lifetime left. */
    ghost predicate Live()
      reads this, grid, fireTtl
      requires Valid()
    {
      forall j :: 0 <= j < N ==> grid[j] == Fire ==> fireTtl[j] > 0
    }

    ghost predicate NoFire()
      reads this, grid
      requires Valid()
    {
      FireFree(grid[..])
    }

    ghost predicate Disarmed()
      reads this, grid, fuse
      requires Valid()
    {
      BombsDisarmed(grid[..], fuse[..])
    }

    /** The zero-filled typed arrays the component starts with. */
    constructor()
      ensures Valid() && Live() && frame == 0
      ensures forall j :: 0 <= j < N ==> grid[j] == Empty && fireTtl[j] == 0 && fuse[j] == 0
    {
      grid := new Kind[N](_ => Empty);
      fireTtl := new U8[N](_ => 0);
      fuse := new U16[N](_ => 0);
      frame := 0;
    }

    /** `clear`: every cell empty, every lifetime and fuse zero. */
    method Clear()
      requires Valid()
      modifies grid, fireTtl, fuse
      ensures Valid() && Live()
      ensures forall j :: 0 <= j < N ==> grid[j] == Empty && fireTtl[j] == 0 && fuse[j] == 0
    {
      forall j | 0 <= j < N {
        grid[j] := Empty;
      }
      forall j | 0 <= j < N {
        fireTtl[j] := 0;
      }
      forall j | 0 <= j < N {
        fuse[j] := 0;
      }
    }

    // -------------------------------------------------------------------------
    // Brush

    /**
     Cell j after painting `value`, given whether the brush hit it and its
     kind, lifetime and fuse before: a painted cell takes the value, and
     painting fire lights it for 16 frames, painting a bomb clears its fuse,
     erasing clears both.
     */
    ghost predicate PaintedCell(j: int, hit: bool, value: Kind, g0: Kind, t0: int, f0: int)
      reads this, grid, fireTtl, fuse
      requires Valid() && 0 <= j < N
    {
      grid[j] == (if hit then value else g0)
      && fireTtl[j] == (if hit && value == Fire then PaintedFireTtl else if hit && value == Empty then 0 else t0)
      && fuse[j] == (if hit && (value == Bomb || value == Empty) then 0 else f0)
    }

    /**
     `paint`: while the pointer is down, every cell the brush disc of radius r
     around (px, py) reaches, after clamping into the interior, gets the tool's
     kind, or empty when erasing.
     */
    method Paint(down: bool, px: int, py: int, r: int, erase: bool, tool: Kind)
      requires Valid() && Live()
      modifies grid, fireTtl, fuse
      ensures Live()
      ensures !down ==> unchanged(grid) && unchanged(fireTtl) && unchanged(fuse)
      ensures down ==> forall j :: 0 <= j < N ==>
        PaintedCell(j, Painted(px, py, r, Col(j), Row(j)), if erase then Empty else tool,
                    old(grid[j]), old(fireTtl[j]), old(fuse[j]))
    {
      if !down {
        return;
      }
      var value := if erase then Empty else tool;
      ghost var g0, t0, f0 := grid[..], fireTtl[..], fuse[..];
      PaintedNone(px, py, r, -r);
      var dy := -r;
      while dy <= r
        invariant -r <= dy
        invariant Live()
        invariant forall j :: 0 <= j < N ==>
          PaintedCell(j, PaintedBefore(px, py, r, dy, -r, Col(j), Row(j)), value, g0[j], t0[j], f0[j])
      {
        PaintRow(px, py, r, dy, value, g0, t0, f0);
        dy := dy + 1;
      }
      PaintedAll(px, py, r, dy);
    }

    /** One row dy of the brush square, offsets dx from -r to r. */
    method PaintRow(px: int, py: int, r: int, dy: int, value: Kind,
                    ghost g0: seq<Kind>, ghost t0: seq<U8>, ghost f0: seq<U16>)
      requires Valid() && Live() && |g0| == N && |t0| == N && |f0| == N
      requires forall j :: 0 <= j < N ==>
        PaintedCell(j, PaintedBefore(px, py, r, dy, -r, Col(j), Row(j)), value, g0[j], t0[j], f0[j])
      modifies grid, fireTtl, fuse
      ensures Live()
      ensures forall j :: 0 <= j < N ==>
        PaintedCell(j, PaintedBefore(px, py, r, dy + 1, -r, Col(j), Row(j)), value, g0[j], t0[j], f0[j])
    {
      var dx := -r;
      while dx <= r
        invariant -r <= dx
        invariant Live()
        invariant forall j :: 0 <= j < N ==>
          PaintedCell(j, PaintedBefore(px, py, r, dy, dx, Col(j), Row(j)), value, g0[j], t0[j], f0[j])
      {
        PaintedNext(px, py, r, dy, dx);
        if dx * dx + dy * dy <= r * r {
          var x := Clamp(px + dx, 1, W - 2);
          var y := Clamp(py + dy, 1, H - 2);
          var i := Idx(x, y);
          IdxCoords(x, y);
          grid[i] := value;
          if value == Fire {
            fireTtl[i] := PaintedFireTtl;
          } else if value == Bomb {
            fuse[i] := 0;
          } else if value == Empty {
            fireTtl[i] := 0;
            fuse[i] := 0;
          }
          assert BrushHit(px, py, r, dx, dy, x, y);
          forall j | 0 <= j < N && j != i
            ensures !BrushHit(px, py, r, dx, dy, Col(j), Row(j))
          {
            CoordsIdx(j);
          }
        }
        dx := dx + 1;
      }
      PaintedNextRow(px, py, r, dy, dx);
    }

    // -------------------------------------------------------------------------
    // Collision

    /** Cell (xx, yy) stops the player: outside the grid, or solid. */
    ghost predicate Blocks(xx: int, yy: int)
      reads this, grid
      requires Valid()
    {
      !InGrid(xx, yy) || IsSolid(grid[Idx(xx, yy)])
    }

    /** `rectHits`: some cell of the w0 by h0 rectangle at (x, y) is outside the grid or solid. */
    method RectHits(x: int, y: int, w0: int, h0: int) returns (hit: bool)
      requires Valid()
      ensures hit <==> exists xx, yy :: x <= xx < x + w0 && y <= yy < y + h0 && Blocks(xx, yy)
    {
      var yy := y;
      while yy < y + h0
        invariant y <= yy || y + h0 <= y
        invariant forall a, b :: x <= a < x + w0 && y <= b < yy ==> !Blocks(a, b)
        decreases y + h0 - yy
      {
        var xx := x;
        while xx < x + w0
          invariant forall a, b :: x <= a < x + w0 && y <= b < yy ==> !Blocks(a, b)
          invariant forall a :: x <= a < xx ==> !Blocks(a, yy)
          decreases x + w0 - xx
        {
          if xx < 0 || xx >= W || yy < 0 || yy >= H {
            assert Blocks(xx, yy);
            return true;
          }
          if IsSolid(grid[Idx(xx, yy)]) {
            assert Blocks(xx, yy);
            return true;
          }
          xx := xx + 1;
        }
        yy := yy + 1;
      }
      return false;
    }

    // -------------------------------------------------------------------------
    // Fire and explosions

    method IgniteAt(x: int, y: int, ttl: int)
      requires Valid() && Live() && 0 < ttl < 0x100
      modifies grid, fireTtl
      ensures Live()
      ensures IgnitedFrom(old(grid[..]), old(fireTtl[..]), old(fuse[..]), x, y, ttl, grid[..], fireTtl[..], fuse[..])
    {
      if x <= 0 || x >= W - 1 || y <= 0 || y >= H - 1 {
        return;
      }
      var i := Idx(x, y);
      var c := grid[i];
      if c == Wall || c == Bomb {
        return;
      }
      grid[i] := Fire;
      fireTtl[i] := Max(fireTtl[i], ttl);
    }

    /** Cell j of the blast centred on (cx, cy): fuse cleared, and either empty or a ring fire of 10 to 19 frames. */
    ghost predicate BlastedCell(cx: int, cy: int, r: int, j: int)
      reads this, grid, fireTtl, fuse
      requires Valid() && 0 <= j < N
    {
      fuse[j] == 0
      && ((grid[j] == Empty && fireTtl[j] == 0)
          || (grid[j] == Fire && InRing(cx, cy, r, Col(j), Row(j)) && 10 <= fireTtl[j] < 20))
    }

    /** The arrays after an explosion of radius r at (cx, cy) hit the cells before (yEnd, xEnd) in row-major order. */
    ghost predicate BlastedBefore(g0: seq<Kind>, t0: seq<U8>, f0: seq<U16>, cx: int, cy: int, r: int, yEnd: int, xEnd: int)
      reads this, grid, fireTtl, fuse
      requires Valid() && |g0| == N && |t0| == N && |f0| == N
    {
      forall j :: 0 <= j < N ==>
        if InBlast(cx, cy, r, Col(j), Row(j)) && (Row(j) < yEnd || (Row(j) == yEnd && Col(j) < xEnd)) then
          BlastedCell(cx, cy, r, j)
        else
          grid[j] == g0[j] && fireTtl[j] == t0[j] && fuse[j] == f0[j]
    }

    /** `explode` on the grid; the knockback it gives the player is not part of this model. */
    method Explode(cx: int, cy: int, radius: int)
      requires Valid() && Live()
      modifies grid, fireTtl, fuse
      ensures Live()
      ensures ExplodedFrom(old(grid[..]), old(fireTtl[..]), old(fuse[..]), cx, cy, radius, grid[..], fireTtl[..], fuse[..])
    {
      ghost var g0, t0, f0 := grid[..], fireTtl[..], fuse[..];
      var y := cy - radius;
      while y <= cy + radius
        invariant cy - radius <= y
        invariant Live()
        invariant BlastedBefore(g0, t0, f0, cx, cy, radius, y, cx - radius)
      {
        ExplodeRow(cx, cy, radius, y, g0, t0, f0);
        y := y + 1;
      }
    }

    method ExplodeRow(cx: int, cy: int, radius: int, y: int, ghost g0: seq<Kind>, ghost t0: seq<U8>, ghost f0: seq<U16>)
      requires Valid() && Live() && |g0| == N && |t0| == N && |f0| == N && cy - radius <= y <= cy + radius
      requires BlastedBefore(g0, t0, f0, cx, cy, radius, y, cx - radius)
      modifies grid, fireTtl, fuse
      ensures Live()
      ensures BlastedBefore(g0, t0, f0, cx, cy, radius, y + 1, cx - radius)
    {
      var x := cx - radius;
      while x <= cx + radius
        invariant cx - radius <= x
        invariant Live()
        invariant BlastedBefore(g0, t0, f0, cx, cy, radius, y, x)
      {
        ExplodeCell(cx, cy, radius, x, y, g0, t0, f0);
        x := x + 1;
      }
    }

    method ExplodeCell(cx: int, cy: int, radius: int, x: int, y: int, ghost g0: seq<Kind>, ghost t0: seq<U8>, ghost f0: seq<U16>)
      requires Valid() && Live() && |g0| == N && |t0| == N && |f0| == N
      requires cx - radius <= x <= cx + radius && cy - radius <= y <= cy + radius
      requires BlastedBefore(g0, t0, f0, cx, cy, radius, y, x)
      modifies grid, fireTtl, fuse
      ensures Live()
      ensures BlastedBefore(g0, t0, f0, cx, cy, radius, y, x + 1)
    {
      if x <= 0 || x >= W - 1 || y <= 0 || y >= H - 1 {
        return;
      }
      var dx := x - cx;
      var dy := y - cy;
      if dx * dx + dy * dy > radius * radius {
        return;
      }
      var i := Idx(x, y);
      IdxCoords(x, y);
      assert InBlast(cx, cy, radius, x, y);
      grid[i] := Empty;
      fireTtl[i] := 0;
      fuse[i] := 0;
      var lit: bool := *;
      if 4 * (dx * dx + dy * dy) > (2 * radius - 3) * (2 * radius - 3) && lit {
        grid[i] := Fire;
        var t: int :| 10 <= t < 20;
        fireTtl[i] := t;
        assert InRing(cx, cy, radius, x, y);
      }
      assert BlastedCell(cx, cy, radius, i);
      forall j | 0 <= j < N && j != i
        ensures Col(j) != x || Row(j) != y
      {
        CoordsIdx(j);
      }
    }

    // -------------------------------------------------------------------------
    // The player's bomb push

    /**
     The bomb push of a blocked horizontal move: in each covered interior row,
     a bomb directly in front of the player moves one cell further into an
     empty cell, taking its fuse along and leaving an empty cell with no fuse.
     */
    method PushBombs(p: Push)
      requires Valid() && Live() && (p.dir == 1 || p.dir == -1)
      modifies grid, fuse
      ensures Live()
      ensures multiset(grid[..]) == multiset(old(grid[..]))
      ensures PushedBefore(old(grid[..]), old(fuse[..]), p, p.y1 + 1, grid[..], fuse[..])
    {
      ghost var g0, f0 := grid[..], fuse[..];
      var yy := p.y0;
      while yy <= p.y1
        invariant p.y0 <= yy
        invariant Live()
        invariant multiset(grid[..]) == multiset(g0)
        invariant PushedBefore(g0, f0, p, yy, grid[..], fuse[..])
        decreases p.y1 - yy
      {
        PushRow(p, yy, g0, f0);
        yy := yy + 1;
      }
      ghost var end := p.y1 + 1;
      forall j | 0 <= j < N
        ensures PushedCell(g0, f0, p, end, grid[..], fuse[..], j)
      {
        assert PushedCell(g0, f0, p, yy, grid[..], fuse[..], j);
      }
    }

    /** The bomb at fi moves to the empty cell ti, its fuse with it. */
    method MoveBomb(fi: int, ti: int)
      requires Valid() && Live() && 0 <= fi < N && 0 <= ti < N && fi != ti
      requires grid[fi] == Bomb && grid[ti] == Empty
      modifies grid, fuse
      ensures Live()
      ensures grid[..] == old(grid[..])[ti := Bomb][fi := Empty] && multiset(grid[..]) == multiset(old(grid[..]))
      ensures fuse[..] == old(fuse[..])[ti := old(fuse[fi])][fi := 0]
    {
      ghost var gb := grid[..];
      grid[ti] := Bomb;
      grid[fi] := Empty;
      fuse[ti] := fuse[fi];
      fuse[fi] := 0;
      assert grid[..] == Swap(gb, fi, ti);
    }

    method PushRow(p: Push, yy: int, ghost g0: seq<Kind>, ghost f0: seq<U16>)
      requires Valid() && Live() && (p.dir == 1 || p.dir == -1) && |g0| == N && |f0| == N
      requires p.y0 <= yy <= p.y1
      requires multiset(grid[..]) == multiset(g0)
      requires PushedBefore(g0, f0, p, yy, grid[..], fuse[..])
      modifies grid, fuse
      ensures Live()
      ensures multiset(grid[..]) == multiset(g0)
      ensures PushedBefore(g0, f0, p, yy + 1, grid[..], fuse[..])
    {
      ghost var gb, fb := grid[..], fuse[..];
      if p.frontX < 1 || p.frontX >= W - 1 || yy < 1 || yy >= H - 1 {
        PushSkipsRow(g0, f0, p, yy, gb, fb);
        return;
      }
      var fi := Idx(p.frontX, yy);
      var ti := Idx(p.frontX + p.dir, yy);
      if grid[fi] == Bomb && grid[ti] == Empty {
        MoveBomb(fi, ti);
        PushMovesRow(g0, f0, p, yy, gb, fb);
      } else {
        PushSkipsRow(g0, f0, p, yy, gb, fb);
      }
    }

    // -------------------------------------------------------------------------
    // Ignition pass

    /**
     One cell of the ignition pass: next to fire, a bomb with no running fuse
     is armed, oil catches fire and gunpowder blows up; nothing else changes,
     and nothing at all away from fire.
     */
    method IgniteCell(x: int, y: int)
      requires Valid() && Live() && Interior(x, y)
      modifies grid, fireTtl, fuse
      ensures Live()
      ensures !AdjFire(old(grid[..]), x, y) ==> unchanged(grid) && unchanged(fireTtl) && unchanged(fuse)
      ensures var g0, t0, f0, i := old(grid[..]), old(fireTtl[..]), old(fuse[..]), Idx(x, y);
        AdjFire(g0, x, y) ==>
          if g0[i] == Bomb && f0[i] == 0 then grid[..] == g0 && fireTtl[..] == t0 && fuse[..] == f0[i := ArmedFuse]
          else if g0[i] == Oil then IgnitedFrom(g0, t0, f0, x, y, OilIgnitionTtl, grid[..], fireTtl[..], fuse[..])
          else if g0[i] == Gunpowder then ExplodedFrom(g0[i := Empty], t0, f0, x, y, PowderBlast, grid[..], fireTtl[..], fuse[..])
          else grid[..] == g0 && fireTtl[..] == t0 && fuse[..] == f0
    {
      var i := Idx(x, y);
      var c := grid[i];
      var adjFire := grid[Idx(x + 1, y)] == Fire || grid[Idx(x - 1, y)] == Fire
                     || grid[Idx(x, y + 1)] == Fire || grid[Idx(x, y - 1)] == Fire;
      if !adjFire {
        return;
      }
      if c == Bomb && fuse[i] == 0 {
        fuse[i] := ArmedFuse;
      } else if c == Oil {
        IgniteAt(x, y, OilIgnitionTtl);
      } else if c == Gunpowder {
        SetEmpty(i);
        Explode(x, y, PowderBlast);
      }
    }

    /** The cell at i becomes empty, keeping its lifetime and fuse. */
    method SetEmpty(i: int)
      requires Valid() && Live() && 0 <= i < N
      modifies grid
      ensures Live()
      ensures grid[..] == old(grid[..])[i := Empty]
    {
      grid[i] := Empty;
    }

    /** The ignition pass, row by row from the top; without fire anywhere it changes nothing. */
    method IgnitionPass()
      requires Valid() && Live()
      modifies grid, fireTtl, fuse
      ensures Live()
      ensures old(NoFire()) ==> unchanged(grid) && unchanged(fireTtl) && unchanged(fuse)
    {
      for y := 1 to H - 1
        invariant Live()
        invariant old(NoFire()) ==> unchanged(grid) && unchanged(fireTtl) && unchanged(fuse)
      {
        IgnitionRow(y);
      }
    }

    method IgnitionRow(y: int)
      requires Valid() && Live() && 1 <= y < H - 1
      modifies grid, fireTtl, fuse
      ensures Live()
      ensures old(NoFire()) ==> unchanged(grid) && unchanged(fireTtl) && unchanged(fuse)
    {
      for x := 1 to W - 1
        invariant Live()
        invariant old(NoFire()) ==> unchanged(grid) && unchanged(fireTtl) && unchanged(fuse)
      {
        assert old(NoFire()) ==> NoFire();
        IgniteCell(x, y);
      }
    }

    // -------------------------------------------------------------------------
    // Movement pass

    /** The two cells exchange their kinds, which is what every move of sand, water, oil and gunpowder does. */
    method SwapCells(i: int, t: int)
      requires Valid() && Live() && 0 <= i < N && 0 <= t < N && grid[i] != Fire && grid[t] != Fire
      modifies grid
      ensures Live()
      ensures grid[..] == Swap(old(grid[..]), i, t)
    {
      grid[i], grid[t] := grid[t], grid[i];
    }

    /** Sand (with `SandGrain`) or gunpowder (with `PowderGrain`) at interior (x, y) falls or slides. */
    method MoveGrain(x: int, y: int, grain: Grain, firstLeft: bool)
      requires Valid() && Live() && Interior(x, y)
      requires grid[Idx(x, y)] == (if grain == SandGrain then Sand else Gunpowder)
      modifies grid
      ensures Live()
      ensures grid[..] == Move(old(grid[..]), Idx(x, y), GrainTarget(old(grid[..]), x, y, grain, firstLeft))
    {
      NeighboursInGrid(x, y);
      var i := Idx(x, y);
      var below := grid[i + W];
      if Displaces(grain, below) {
        SwapCells(i, i + W);
      } else {
        var dl := grid[i + W - 1];
        var dr := grid[i + W + 1];
        if (firstLeft && Displaces(grain, dl)) || (!firstLeft && Displaces(grain, dr)) {
          var ni := if firstLeft then i + W - 1 else i + W + 1;
          SwapCells(i, ni);
        } else if Displaces(grain, dl) {
          SwapCells(i, i + W - 1);
        } else if Displaces(grain, dr) {
          SwapCells(i, i + W + 1);
        }
      }
    }

    /** `trySpread`: water at i moves to the first empty cell up to five cells toward dir, through water and oil only. */
    method TrySpread(i: int, dir: int) returns (moved: bool)
      requires Valid() && Live() && MaxSpread <= i < N - MaxSpread && grid[i] == Water && (dir == 1 || dir == -1)
      modifies grid
      ensures Live()
      ensures moved <==> SpreadTarget(old(grid[..]), i, dir).Some?
      ensures grid[..] == Move(old(grid[..]), i, SpreadTarget(old(grid[..]), i, dir))
    {
      ghost var g0 := grid[..];
      var dist := 1;
      while dist <= MaxSpread
        invariant 1 <= dist <= MaxSpread + 1
        invariant grid[..] == g0
        invariant SpreadTarget(g0, i, dir) == SpreadFrom(g0, i, dir, dist)
      {
        var ti := Probe(i, dir, dist);
        var tc := grid[ti];
        if tc != Empty {
          if tc != Water && tc != Oil {
            return false;
          }
        } else {
          SwapCells(i, ti);
          return true;
        }
        dist := dist + 1;
      }
      return false;
    }

    /** Water at interior (x, y): falls, sinks under oil, flows diagonally down, or spreads sideways. */
    method MoveWater(x: int, y: int)
      requires Valid() && Live() && Interior(x, y) && grid[Idx(x, y)] == Water
      modifies grid
      ensures Live()
      ensures grid[..] == Move(old(grid[..]), Idx(x, y), WaterTarget(old(grid[..]), x, y, frame))
    {
      NeighboursInGrid(x, y);
      ghost var g := grid[..];
      var i := Idx(x, y);
      var below := grid[i + W];
      if below == Empty {
        SwapCells(i, i + W);
      } else if below == Oil {
        SwapCells(i, i + W);
      } else {
        var dir1 := FirstDir(x, y, frame);
        var dir2 := -dir1;
        var dl := grid[i + W + dir1];
        var dr := grid[i + W + dir2];
        if dl == Empty {
          assert WaterTarget(g, x, y, frame) == Some(i + W + dir1);
          SwapCells(i, i + W + dir1);
        } else if dr == Empty {
          assert WaterTarget(g, x, y, frame) == Some(i + W + dir2);
          SwapCells(i, i + W + dir2);
        } else {
          assert WaterTarget(g, x, y, frame) ==
            if SpreadTarget(g, i, dir1).Some? then SpreadTarget(g, i, dir1) else SpreadTarget(g, i, dir2);
          var moved := TrySpread(i, dir1);
          if !moved {
            assert grid[..] == g;
            moved := TrySpread(i, dir2);
          }
        }
      }
    }

    /** Oil at interior (x, y): falls, floats up through water below, or flows sideways. */
    method MoveOil(x: int, y: int)
      requires Valid() && Live() && Interior(x, y) && grid[Idx(x, y)] == Oil
      modifies grid
      ensures Live()
      ensures grid[..] == Move(old(grid[..]), Idx(x, y), OilTarget(old(grid[..]), x, y, frame))
    {
      NeighboursInGrid(x, y);
      var i := Idx(x, y);
      var below := grid[i + W];
      if below == Empty {
        SwapCells(i, i + W);
      } else if below == Water {
        SwapCells(i, i + W);
      } else {
        var dir1 := FirstDir(x, y, frame);
        var dir2 := -dir1;
        var s1 := grid[i + dir1];
        var s2 := grid[i + dir2];
        if s1 == Empty {
          SwapCells(i, i + dir1);
        } else if s2 == Empty {
          SwapCells(i, i + dir2);
        }
      }
    }

    /** Fire at i loses one frame of lifetime, and goes out once it has none left. */
    method FireDecay(i: int) returns (burnt: bool)
      requires Valid() && Live() && 0 <= i < N && grid[i] == Fire
      modifies grid, fireTtl
      ensures Live()
      ensures fireTtl[..] == old(fireTtl[..])[i := old(fireTtl[i]) - 1]
      ensures burnt <==> fireTtl[i] == 0
      ensures grid[..] == if burnt then old(grid[..])[i := Empty] else old(grid[..])
    {
      if fireTtl[i] > 0 {
        fireTtl[i] := fireTtl[i] - 1;
      }
      burnt := fireTtl[i] == 0;
      if burnt {
        grid[i] := Empty;
      }
    }

    /** Fire at interior (x, y) may rise into an empty cell above it, which keeps the longer lifetime. */
    method FireDrift(x: int, y: int)
      requires Valid() && Live() && Interior(x, y) && grid[Idx(x, y)] == Fire
      modifies grid, fireTtl
      ensures Live()
      ensures var g0, t0, i, a := old(grid[..]), old(fireTtl[..]), Idx(x, y), Idx(x, y - 1);
        (grid[..] == g0 && fireTtl[..] == t0)
        || (g0[a] == Empty && grid[..] == g0[i := Empty][a := Fire] && fireTtl[..] == t0[a := Max(t0[a], t0[i])])
    {
      var i := Idx(x, y);
      var rises: bool := *;
      if grid[i - W] == Empty && rises {
        grid[i] := Empty;
        grid[i - W] := Fire;
        fireTtl[i - W] := Max(fireTtl[i - W], fireTtl[i]);
      }
    }

    /** Fire reaching the flammable cell (nx, ny): oil is set on fire, gunpowder is emptied and explodes. */
    method Catch(nx: int, ny: int)
      requires Valid() && Live() && InGrid(nx, ny) && Flammable(grid[Idx(nx, ny)])
      modifies grid, fireTtl, fuse
      ensures Live()
      ensures CaughtFrom(old(grid[..]), old(fireTtl[..]), old(fuse[..]), nx, ny, grid[..], fireTtl[..], fuse[..])
    {
      var ni := Idx(nx, ny);
      if grid[ni] == Oil {
        IgniteAt(nx, ny, SpreadIgnitionTtl);
      } else {
        SetEmpty(ni);
        Explode(nx, ny, PowderBlast);
      }
    }

    /**
     Fire at interior (x, y) may spread. When `spreads`, it looks at its
     neighbours in the order `SpreadDirs(horizontalFirst)`, and the first oil
     or gunpowder neighbour, number `caught` in that order and at (cx, cy),
     catches; with none, or without `spreads`, nothing changes.
     */
    method FireSpread(x: int, y: int) returns (ghost spreads: bool, ghost horizontalFirst: bool, ghost caught: Option<nat>,
                                               ghost cx: int, ghost cy: int)
      requires Valid() && Live() && Interior(x, y)
      modifies grid, fireTtl, fuse
      ensures Live()
      ensures caught == if spreads then FirstFlammable(old(grid[..]), x, y, SpreadDirs(horizontalFirst), 0) else None
      ensures caught.None? ==> unchanged(grid) && unchanged(fireTtl) && unchanged(fuse)
      ensures caught.Some? ==> caught.value < 4 && cx == x + SpreadDirs(horizontalFirst)[caught.value].0
                               && cy == y + SpreadDirs(horizontalFirst)[caught.value].1
      ensures caught.Some? ==> InGrid(cx, cy) && CaughtFrom(old(grid[..]), old(fireTtl[..]), old(fuse[..]), cx, cy, grid[..], fireTtl[..], fuse[..])
    {
      var roll: bool := *;
      spreads, horizontalFirst, caught, cx, cy := roll, true, None, x, y;
      if !roll {
        return;
      }
      var h: bool := *;
      horizontalFirst := h;
      var dirs := SpreadDirs(h);
      var k := FindFlammable(x, y, dirs);
      if k < |dirs| {
        var nx, ny := x + dirs[k].0, y + dirs[k].1;
        caught, cx, cy := Some(k), nx, ny;
        Catch(nx, ny);
      }
    }

    /** The search of the spread: the position in dirs of the first oil or gunpowder neighbour, or |dirs| when there is none. */
    method FindFlammable(x: int, y: int, dirs: seq<(int, int)>) returns (k: nat)
      requires Valid() && Interior(x, y)
      requires forall e :: 0 <= e < |dirs| ==> -1 <= dirs[e].0 <= 1 && -1 <= dirs[e].1 <= 1
      ensures k <= |dirs|
      ensures FirstFlammable(grid[..], x, y, dirs, 0) == if k < |dirs| then Some(k) else None
    {
      k := 0;
      while k < |dirs| && !Flammable(grid[Idx(x + dirs[k].0, y + dirs[k].1)])
        invariant 0 <= k <= |dirs|
        invariant FirstFlammable(grid[..], x, y, dirs, 0) == FirstFlammable(grid[..], x, y, dirs, k)
      {
        k := k + 1;
      }
    }

    /** Fire at interior (x, y): decays, and unless it went out, may rise and may spread. */
    method FireCell(x: int, y: int)
      requires Valid() && Live() && Interior(x, y) && grid[Idx(x, y)] == Fire
      modifies grid, fireTtl, fuse
      ensures Live()
      ensures old(fireTtl[Idx(x, y)]) == 1 ==>
        grid[..] == old(grid[..])[Idx(x, y) := Empty] && fireTtl[..] == old(fireTtl[..])[Idx(x, y) := 0] && unchanged(fuse)
    {
      var i := Idx(x, y);
      var burnt := FireDecay(i);
      if !burnt {
        FireDrift(x, y);
        ghost var spreads: bool, horizontalFirst: bool, caught: Option<nat>, cx: int, cy: int;
        spreads, horizontalFirst, caught, cx, cy := FireSpread(x, y);
      }
    }

    /** One visit of the movement pass: the cell's kind decides its rule; walls, bombs and empty cells stay. */
    method MoveCell(x: int, y: int)
      requires Valid() && Live() && Interior(x, y)
      modifies grid, fireTtl, fuse
      ensures Live()
      ensures old(grid[Idx(x, y)]) != Fire ==>
        grid[..] == Move(old(grid[..]), Idx(x, y), MoveTarget(old(grid[..]), x, y, frame))
        && unchanged(fireTtl) && unchanged(fuse)
    {
      var i := Idx(x, y);
      var c := grid[i];
      if c == Sand {
        MoveGrain(x, y, SandGrain, (x + y) % 2 == 0);
      } else if c == Water {
        MoveWater(x, y);
      } else if c == Oil {
        MoveOil(x, y);
      } else if c == Gunpowder {
        MoveGrain(x, y, PowderGrain, (x + y + frame) % 2 == 0);
      } else if c == Fire {
        FireCell(x, y);
      }
    }

    /**
     A visit of the movement pass to a grid that is a rearrangement of the
     fire-free g0 applies the cell's movement rule and keeps the rearrangement.
     */
    method MoveCellFrom(x: int, y: int, ghost g0: seq<Kind>, ghost calm: bool)
      requires Valid() && Live() && Interior(x, y) && |g0| == N
      requires calm ==> FireFree(g0) && Rearranged(g0, grid[..])
      modifies grid, fireTtl, fuse
      ensures Live()
      ensures calm ==> grid[..] == Move(old(grid[..]), Idx(x, y), MoveTarget(old(grid[..]), x, y, frame))
      ensures calm ==> Rearranged(g0, grid[..]) && unchanged(fireTtl) && unchanged(fuse)
    {
      ghost var prev := grid[..];
      if calm {
        RearrangedKeepsCalm(g0, prev, fuse[..]);
        assert prev[Idx(x, y)] != Fire;
      }
      MoveCell(x, y);
      if calm {
        MoveConserves(prev, x, y, frame);
        RearrangedTransitive(g0, prev, grid[..]);
      }
    }

    /**
     Row y of the movement pass, visiting the interior columns left to right
     exactly when y + frame is even: on a fire-free grid, the rules of the
     visited cells applied in that order (`RowFold`).
     */
    method MoveRow(y: int)
      requires Valid() && Live() && 1 <= y < H - 1
      modifies grid, fireTtl, fuse
      ensures Live()
      ensures FireFree(old(grid[..])) ==> grid[..] == RowFold(old(grid[..]), y, frame, RowOrder(Forward(y, frame)))
      ensures FireFree(old(grid[..])) ==> Rearranged(old(grid[..]), grid[..]) && unchanged(fireTtl) && unchanged(fuse)
    {
      ghost var g0 := grid[..];
      ghost var calm := FireFree(g0);
      var forward := (y + frame) % 2 == 0;
      var xStart := if forward then 1 else W - 2;
      var xEnd := if forward then W - 1 else 0;
      var xStep := if forward then 1 else -1;
      var x := xStart;
      ghost var cols: seq<int> := [];
      ghost var k := 0;
      assert forward == Forward(y, frame);
      while x != xEnd
        invariant 0 <= k <= W - 2 && x == (if forward then 1 + k else W - 2 - k)
        invariant cols == RowOrder(forward)[..k] && InteriorCols(cols)
        invariant Live()
        invariant calm ==> grid[..] == RowFold(g0, y, frame, cols) && unchanged(fireTtl) && unchanged(fuse)
        decreases W - 2 - k
      {
        if calm {
          RowFoldRearranges(g0, y, frame, cols);
        }
        MoveCellFrom(x, y, g0, calm);
        RowOrderAt(forward, k);
        RowFoldSnoc(g0, y, frame, cols, x);
        cols := cols + [x];
        x, k := x + xStep, k + 1;
      }
      RowOrderAt(forward, 0);
      assert cols == RowOrder(Forward(y, frame));
      if calm {
        RowFoldRearranges(g0, y, frame, cols);
      }
    }

    /**
     The movement pass: rows from the bottom (H - 2) up to 1. On a fire-free
     grid it is `PassFold` in that order, which only rearranges the mobile kinds.
     */
    method MovementPass()
      requires Valid() && Live()
      modifies grid, fireTtl, fuse
      ensures Live()
      ensures FireFree(old(grid[..])) ==> grid[..] == PassFold(old(grid[..]), frame, PassOrder())
      ensures FireFree(old(grid[..])) ==> Rearranged(old(grid[..]), grid[..]) && unchanged(fireTtl) && unchanged(fuse)
    {
      ghost var g0 := grid[..];
      ghost var calm := FireFree(g0);
      var y := H - 2;
      ghost var rows: seq<int> := [];
      ghost var k := 0;
      while y >= 1
        invariant 0 <= k <= H - 2 && y == H - 2 - k
        invariant rows == PassOrder()[..k] && InteriorRows(rows)
        invariant Live()
        invariant calm ==> grid[..] == PassFold(g0, frame, rows) && unchanged(fireTtl) && unchanged(fuse)
      {
        if calm {
          PassFoldRearranges(g0, frame, rows);
        }
        MoveRowFrom(y, g0, calm);
        PassFoldSnoc(g0, frame, rows, y);
        PassOrderAt(k);
        rows := rows + [y];
        y, k := y - 1, k + 1;
      }
      assert rows == PassOrder();
      if calm {
        PassFoldRearranges(g0, frame, rows);
      }
    }

    /**
     A row of the movement pass on a grid that is a rearrangement of the
     fire-free g0: the row's `RowFold`, and still a rearrangement of g0.
     */
    method MoveRowFrom(y: int, ghost g0: seq<Kind>, ghost calm: bool)
      requires Valid() && Live() && 1 <= y < H - 1 && |g0| == N
      requires calm ==> FireFree(g0) && Rearranged(g0, grid[..])
      modifies grid, fireTtl, fuse
      ensures Live()
      ensures calm ==> grid[..] == RowFold(old(grid[..]), y, frame, RowOrder(Forward(y, frame)))
      ensures calm ==> Rearranged(g0, grid[..]) && unchanged(fireTtl) && unchanged(fuse)
    {
      ghost var prev := grid[..];
      if calm {
        RearrangedKeepsCalm(g0, prev, fuse[..]);
      }
      MoveRow(y);
      if calm {
        RearrangedTransitive(g0, prev, grid[..]);
      }
    }

    // -------------------------------------------------------------------------
    // Fuse pass

    /** Fire lit by a bomb's spark at (sx, y): an empty cell starts burning for 8 frames. */
    ghost predicate SparkedAt(g0: seq<Kind>, t0: seq<U8>, sx: int, y: int)
      reads this, grid, fireTtl
      requires Valid() && |g0| == N && |t0| == N && InGrid(sx, y)
    {
      g0[Idx(sx, y)] == Empty && grid[..] == g0[Idx(sx, y) := Fire] && fireTtl[..] == t0[Idx(sx, y) := SparkTtl]
    }

    /**
     One cell of the fuse pass: a bomb whose fuse runs loses a frame; at zero
     it explodes with radius 7; below 6 frames it may throw a spark into an
     empty cell beside it.
     */
    method FuseCell(x: int, y: int)
      requires Valid() && Live() && Interior(x, y)
      modifies grid, fireTtl, fuse
      ensures Live()
      ensures old(grid[Idx(x, y)]) != Bomb || old(fuse[Idx(x, y)]) == 0 ==>
        unchanged(grid) && unchanged(fireTtl) && unchanged(fuse)
      ensures var g0, t0, f0, i := old(grid[..]), old(fireTtl[..]), old(fuse[..]), Idx(x, y);
        g0[i] == Bomb && f0[i] != 0 ==>
        if f0[i] == 1 then ExplodedFrom(g0, t0, f0, x, y, BombBlast, grid[..], fireTtl[..], fuse[..])
        else fuse[..] == f0[i := f0[i] - 1]
             && ((grid[..] == g0 && fireTtl[..] == t0)
                 || (f0[i] - 1 < SparkFuse && (SparkedAt(g0, t0, x - 1, y) || SparkedAt(g0, t0, x + 1, y))))
    {
      var i := Idx(x, y);
      if grid[i] != Bomb {
        return;
      }
      if fuse[i] == 0 {
        return;
      }
      fuse[i] := fuse[i] - 1;
      if fuse[i] == 0 {
        ghost var f1 := fuse[..];
        Explode(x, y, BombBlast);
        IdxCoords(x, y);
        assert InBlast(x, y, BombBlast, Col(i), Row(i));
      } else {
        var sparks: bool := *;
        if fuse[i] < SparkFuse && sparks {
          var left: bool := *;
          var si := Idx(x + (if left then -1 else 1), y);
          if grid[si] == Empty {
            grid[si] := Fire;
            fireTtl[si] := SparkTtl;
          }
        }
      }
    }

    /** The fuse pass; with no running fuse on any bomb it changes nothing. */
    method FusePass()
      requires Valid() && Live()
      modifies grid, fireTtl, fuse
      ensures Live()
      ensures old(Disarmed()) ==> unchanged(grid) && unchanged(fireTtl) && unchanged(fuse)
    {
      for y := 1 to H - 1
        invariant Live()
        invariant old(Disarmed()) ==> unchanged(grid) && unchanged(fireTtl) && unchanged(fuse)
      {
        FuseRow(y);
      }
    }

    method FuseRow(y: int)
      requires Valid() && Live() && 1 <= y < H - 1
      modifies grid, fireTtl, fuse
      ensures Live()
      ensures old(Disarmed()) ==> unchanged(grid) && unchanged(fireTtl) && unchanged(fuse)
    {
      for x := 1 to W - 1
        invariant Live()
        invariant old(Disarmed()) ==> unchanged(grid) && unchanged(fireTtl) && unchanged(fuse)
      {
        assert old(Disarmed()) ==> Disarmed();
        FuseCell(x, y);
      }
    }

    // -------------------------------------------------------------------------
    // A frame

    /**
     `step`: one frame. The brush paints while the pointer is down, the
     player's blocked move may push bombs, then the ignition, movement and
     fuse passes run. A sandbox with no fire and no running fuse, left alone,
     only lets its sand, water, oil and gunpowder trade places.
     */
    method Step(down: bool, px: int, py: int, brush: int, erase: bool, tool: Kind, push: Option<Push>)
      requires Valid() && Live()
      requires push.Some? ==> push.value.dir == 1 || push.value.dir == -1
      modifies this, grid, fireTtl, fuse
      ensures Valid() && Live() && frame == old(frame) + 1
      ensures !down && push.None? && old(NoFire()) && old(Disarmed()) ==>
        grid[..] == PassFold(old(grid[..]), frame, PassOrder())
      ensures !down && push.None? && old(NoFire()) && old(Disarmed()) ==>
        NoFire() && Disarmed() && Rearranged(old(grid[..]), grid[..]) && unchanged(fireTtl) && unchanged(fuse)
    {
      ghost var calm := !down && push.None? && NoFire() && Disarmed();
      ghost var g0 := grid[..];
      frame := frame + 1;
      Paint(down, px, py, brush, erase, tool);
      if push.Some? {
        PushBombs(push.value);
      }
      IgnitionPass();
      assert calm ==> grid[..] == g0 && NoFire() && Disarmed();
      MovementPass();
      ghost var g2 := grid[..];
      if calm {
        RearrangedKeepsCalm(g0, g2, fuse[..]);
      }
      FusePass();
      assert calm ==> grid[..] == g2;
    }
  }

  /** A row that does not take part in the push leaves the arrays as they are. */
  lemma PushSkipsRow(g0: seq<Kind>, f0: seq<U16>, p: Push, yy: int, g: seq<Kind>, f: seq<U16>)
    requires |g0| == N && |f0| == N && |g| == N && |f| == N && (p.dir == 1 || p.dir == -1)
    requires PushedBefore(g0, f0, p, yy, g, f)
    requires 1 <= p.frontX < W - 1 && 1 <= yy < H - 1 ==>
      !(g[Idx(p.frontX, yy)] == Bomb && g[Idx(p.frontX + p.dir, yy)] == Empty)
    ensures PushedBefore(g0, f0, p, yy + 1, g, f)
  {
    if 1 <= p.frontX < W - 1 && 1 <= yy < H - 1 {
      IdxCoords(p.frontX, yy);
      IdxCoords(p.frontX + p.dir, yy);
      assert PushedCell(g0, f0, p, yy, g, f, Idx(p.frontX, yy));
      assert PushedCell(g0, f0, p, yy, g, f, Idx(p.frontX + p.dir, yy));
    }
    var next := yy + 1;
    forall j | 0 <= j < N
      ensures PushedCell(g0, f0, p, next, g, f, j)
    {
      assert PushedCell(g0, f0, p, yy, g, f, j);
    }
  }

  /** A row that takes part in the push moves its bomb and the bomb's fuse one cell on. */
  lemma PushMovesRow(g0: seq<Kind>, f0: seq<U16>, p: Push, yy: int, g: seq<Kind>, f: seq<U16>)
    requires |g0| == N && |f0| == N && |g| == N && |f| == N && (p.dir == 1 || p.dir == -1)
    requires PushedBefore(g0, f0, p, yy, g, f)
    requires p.y0 <= yy <= p.y1 && 1 <= p.frontX < W - 1 && 1 <= yy < H - 1
    requires g[Idx(p.frontX, yy)] == Bomb && g[Idx(p.frontX + p.dir, yy)] == Empty
    ensures Pushes(g0, p, yy)
    ensures PushedBefore(g0, f0, p, yy + 1,
                         g[Idx(p.frontX + p.dir, yy) := Bomb][Idx(p.frontX, yy) := Empty],
                         f[Idx(p.frontX + p.dir, yy) := f[Idx(p.frontX, yy)]][Idx(p.frontX, yy) := 0])
  {
    var fi, ti := Idx(p.frontX, yy), Idx(p.frontX + p.dir, yy);
    IdxCoords(p.frontX, yy);
    IdxCoords(p.frontX + p.dir, yy);
    assert PushedCell(g0, f0, p, yy, g, f, fi) && PushedCell(g0, f0, p, yy, g, f, ti);
    var g', f' := g[ti := Bomb][fi := Empty], f[ti := f[fi]][fi := 0];
    var next := yy + 1;
    forall j | 0 <= j < N
      ensures PushedCell(g0, f0, p, next, g', f', j)
    {
      CoordsIdx(j);
      assert PushedCell(g0, f0, p, yy, g, f, j);
    }
  }
}
