/**
 The tile world as the player changes it: a sparse overlay of edits on top of
 the base terrain, kept reconciled (no stored edit equals the base block of its
 tile), plus the solid-rectangle test used for collisions and the mine / place
 action of a pointer press.
 */
module TileWorld {
  import opened TileTerrain

  const TileSize := 18

  // ---------------------------------------------------------------------------
  // The overlay as a map

  /** Every stored edit is on a tile inside the world and differs from that tile's base block. */
  ghost predicate Reconciled(heights: seq<int>, deco: map<Tile, Block>, edits: map<Tile, Block>)
    requires |heights| == WorldW
  {
    forall t :: t in edits ==> InWorld(t.0, t.1) && edits[t] != BaseBlock(heights, deco, t.0, t.1)
  }

  /** `getBlock`: the edit of the tile if there is one, else its base block. */
  function Effective(heights: seq<int>, deco: map<Tile, Block>, edits: map<Tile, Block>, tx: int, ty: int): Block
    requires |heights| == WorldW
  {
    if (tx, ty) in edits then edits[(tx, ty)] else BaseBlock(heights, deco, tx, ty)
  }

  /**
   `setBlock` on the overlay: nothing outside the world; inside, the edit is
   dropped when id is the base block and stored otherwise.
   */
  function WithBlock(heights: seq<int>, deco: map<Tile, Block>, edits: map<Tile, Block>,
                     tx: int, ty: int, id: Block): (e: map<Tile, Block>)
    requires |heights| == WorldW
    ensures !InWorld(tx, ty) ==> e == edits
    ensures InWorld(tx, ty) ==> Effective(heights, deco, e, tx, ty) == id
    ensures forall x, y :: (x != tx || y != ty) ==>
      Effective(heights, deco, e, x, y) == Effective(heights, deco, edits, x, y)
    ensures forall t :: t != (tx, ty) ==> (t in e <==> t in edits) && (t in e ==> e[t] == edits[t])
    ensures Reconciled(heights, deco, edits) ==> Reconciled(heights, deco, e)
  {
    if !InWorld(tx, ty) then edits
    else if id == BaseBlock(heights, deco, tx, ty) then edits - {(tx, ty)}
    else edits[(tx, ty) := id]
  }

  /** Setting a tile back to what it showed before undoes the edit exactly, stored entries included. */
  lemma SetBackRestores(heights: seq<int>, deco: map<Tile, Block>, edits: map<Tile, Block>, tx: int, ty: int, id: Block)
    requires |heights| == WorldW && Reconciled(heights, deco, edits)
    ensures WithBlock(heights, deco, WithBlock(heights, deco, edits, tx, ty, id), tx, ty,
                      Effective(heights, deco, edits, tx, ty)) == edits
  {
    var e := WithBlock(heights, deco, WithBlock(heights, deco, edits, tx, ty, id), tx, ty,
                       Effective(heights, deco, edits, tx, ty));
    if InWorld(tx, ty) {
      assert forall t :: t in e <==> t in edits;
      assert forall t :: t in e ==> e[t] == edits[t];
    }
  }

  /** Setting a tile twice to the same block is the same as setting it once. */
  lemma SetBlockIdempotent(heights: seq<int>, deco: map<Tile, Block>, edits: map<Tile, Block>, tx: int, ty: int, id: Block)
    requires |heights| == WorldW
    ensures WithBlock(heights, deco, WithBlock(heights, deco, edits, tx, ty, id), tx, ty, id)
         == WithBlock(heights, deco, edits, tx, ty, id)
  {
    var once := WithBlock(heights, deco, edits, tx, ty, id);
    var twice := WithBlock(heights, deco, once, tx, ty, id);
    assert forall t :: t in twice <==> t in once;
  }

  /**
   A reconciled overlay is determined by the world it shows: two reconciled
   overlays that agree on every tile of the world are the same map.
   */
  lemma {:induction false} ReconciledIsCanonical(heights: seq<int>, deco: map<Tile, Block>,
                                                 e1: map<Tile, Block>, e2: map<Tile, Block>)
    requires |heights| == WorldW
    requires Reconciled(heights, deco, e1) && Reconciled(heights, deco, e2)
    requires forall x, y :: InWorld(x, y) ==> Effective(heights, deco, e1, x, y) == Effective(heights, deco, e2, x, y)
    ensures e1 == e2
  {
    forall t | t in e1 ensures t in e2 && e2[t] == e1[t] {
      assert Effective(heights, deco, e1, t.0, t.1) == Effective(heights, deco, e2, t.0, t.1);
    }
    forall t | t in e2 ensures t in e1 {
      assert Effective(heights, deco, e1, t.0, t.1) == Effective(heights, deco, e2, t.0, t.1);
    }
  }

  // ---------------------------------------------------------------------------
  // The pointer action rules

  /** The player's collision box in world pixels. */
  datatype PlayerBox = PlayerBox(x: real, y: real, w: real, h: real)

  /** The tile (tx, ty) overlaps the player's box (strict inequalities, as in the source). */
  predicate Overlaps(tx: int, ty: int, p: PlayerBox) {
    var tileRx := (tx * TileSize) as real;
    var tileRy := (ty * TileSize) as real;
    tileRx < p.x + p.w && tileRx + TileSize as real > p.x && tileRy < p.y + p.h && tileRy + TileSize as real > p.y
  }

  predicate HasSolidNeighbour(heights: seq<int>, deco: map<Tile, Block>, edits: map<Tile, Block>, tx: int, ty: int)
    requires |heights| == WorldW
  {
    IsSolid(Effective(heights, deco, edits, tx + 1, ty)) || IsSolid(Effective(heights, deco, edits, tx - 1, ty))
    || IsSolid(Effective(heights, deco, edits, tx, ty + 1)) || IsSolid(Effective(heights, deco, edits, tx, ty - 1))
  }

  /** A block may be placed on an air tile clear of the player and next to a solid tile. */
  predicate MayPlace(heights: seq<int>, deco: map<Tile, Block>, edits: map<Tile, Block>, tx: int, ty: int, p: PlayerBox)
    requires |heights| == WorldW
  {
    Effective(heights, deco, edits, tx, ty) == Air && !Overlaps(tx, ty, p) && HasSolidNeighbour(heights, deco, edits, tx, ty)
  }

  /** Any tile that does not show air may be mined, including the stone beyond the world's edge. */
  predicate MayMine(heights: seq<int>, deco: map<Tile, Block>, edits: map<Tile, Block>, tx: int, ty: int)
    requires |heights| == WorldW
  {
    Effective(heights, deco, edits, tx, ty) != Air
  }

  /**
   Mining beyond the world's edge is allowed, because the tile reads as stone,
   yet it stores nothing: the press reports a save and leaves the overlay as it was.
   */
  lemma MiningOutsideIsIdle(heights: seq<int>, deco: map<Tile, Block>, edits: map<Tile, Block>, tx: int, ty: int)
    requires |heights| == WorldW && Reconciled(heights, deco, edits) && !InWorld(tx, ty)
    ensures MayMine(heights, deco, edits, tx, ty)
    ensures WithBlock(heights, deco, edits, tx, ty, Air) == edits
  {
    assert (tx, ty) !in edits;
  }

  /** An allowed placement lies inside the world, shows the placed block and still rests against a solid tile. */
  lemma {:induction false} PlacedBlockIsSupported(heights: seq<int>, deco: map<Tile, Block>, edits: map<Tile, Block>,
                                                  tx: int, ty: int, p: PlayerBox, id: Block)
    requires |heights| == WorldW && Reconciled(heights, deco, edits)
    requires MayPlace(heights, deco, edits, tx, ty, p) && IsSolid(id)
    ensures InWorld(tx, ty)
    ensures var e := WithBlock(heights, deco, edits, tx, ty, id);
      Effective(heights, deco, e, tx, ty) == id && HasSolidNeighbour(heights, deco, e, tx, ty)
  {
    assert (tx, ty) !in edits ==> InWorld(tx, ty);
    var e := WithBlock(heights, deco, edits, tx, ty, id);
    assert Effective(heights, deco, e, tx + 1, ty) == Effective(heights, deco, edits, tx + 1, ty);
    assert Effective(heights, deco, e, tx - 1, ty) == Effective(heights, deco, edits, tx - 1, ty);
    assert Effective(heights, deco, e, tx, ty + 1) == Effective(heights, deco, edits, tx, ty + 1);
    assert Effective(heights, deco, e, tx, ty - 1) == Effective(heights, deco, edits, tx, ty - 1);
  }

  // ---------------------------------------------------------------------------
  // The world object

  class World {
    const heights: seq<int>
    const deco: map<Tile, Block>
    var edits: map<Tile, Block>

    ghost predicate Valid()
      reads this
    {
      HeightsOk(heights) && Reconciled(heights, deco, edits)
    }

    /** A fresh world for a seed: its base terrain and no saved edits. */
    constructor (heights: seq<int>, deco: map<Tile, Block>)
      requires HeightsOk(heights)
      ensures Valid()
      ensures this.heights == heights && this.deco == deco && edits == map[]
    {
      this.heights := heights;
      this.deco := deco;
      edits := map[];
    }

    function GetBlock(tx: int, ty: int): Block
      reads this
      requires |heights| == WorldW
    {
      Effective(heights, deco, edits, tx, ty)
    }

    /** `setBlock`: assigns or deletes the entry of one tile, keeping the overlay reconciled. */
    method SetBlock(tx: int, ty: int, id: Block)
      requires Valid()
      modifies this
      ensures Valid()
      ensures edits == WithBlock(heights, deco, old(edits), tx, ty, id)
      ensures InWorld(tx, ty) ==> GetBlock(tx, ty) == id
      ensures forall x, y :: (x != tx || y != ty) ==> GetBlock(x, y) == old(GetBlock(x, y))
    {
      if tx < 0 || tx >= WorldW || ty < 0 || ty >= WorldH {
        return;
      }
      var b := BaseBlock(heights, deco, tx, ty);
      if id == b {
        edits := edits - {(tx, ty)};
      } else {
        edits := edits[(tx, ty) := id];
      }
    }

    /** Some tile in the inclusive range [x0..x1] x [y0..y1] is solid. */
    ghost predicate SolidIn(x0: int, x1: int, y0: int, y1: int)
      reads this
      requires |heights| == WorldW
    {
      exists x, y :: x0 <= x <= x1 && y0 <= y <= y1 && IsSolid(GetBlock(x, y))
    }

    /**
     `rectHitsSolid`: the pixel rectangle touches a solid tile, scanning the
     tiles under its corners' floor coordinates row by row.
     */
    method RectHitsSolid(rx: real, ry: real, rw: real, rh: real) returns (hit: bool)
      requires HeightsOk(heights)
      ensures hit <==> SolidIn((rx / TileSize as real).Floor, ((rx + rw) / TileSize as real).Floor,
                               (ry / TileSize as real).Floor, ((ry + rh) / TileSize as real).Floor)
    {
      var x0 := (rx / TileSize as real).Floor;
      var y0 := (ry / TileSize as real).Floor;
      var x1 := ((rx + rw) / TileSize as real).Floor;
      var y1 := ((ry + rh) / TileSize as real).Floor;
      var y := y0;
      while y <= y1
        invariant y0 <= y || y1 < y0
        invariant forall a, b :: x0 <= a <= x1 && y0 <= b < y ==> !IsSolid(GetBlock(a, b))
        decreases y1 - y
      {
        var x := x0;
        while x <= x1
          invariant forall a, b :: x0 <= a <= x1 && y0 <= b < y ==> !IsSolid(GetBlock(a, b))
          invariant forall a :: x0 <= a < x ==> !IsSolid(GetBlock(a, y))
          decreases x1 - x
        {
          if IsSolid(GetBlock(x, y)) {
            return true;
          }
          x := x + 1;
        }
        y := y + 1;
      }
      return false;
    }

    /**
     The mine / place branch of a pointer press at world pixel (wx, wy). The
     press is ignored unless the game runs and the target tile is within
     reach; the secondary button places `selected`, any other button mines.
     `saved` tells whether the overlay was written to storage afterwards.
     */
    method PointerDown(running: bool, reachable: (int, int) -> bool, wx: real, wy: real,
                       secondary: bool, selected: Block, player: PlayerBox) returns (saved: bool)
      requires Valid()
      modifies this
      ensures Valid()
      ensures var tx := (wx / TileSize as real).Floor;
              var ty := (wy / TileSize as real).Floor;
              var act := running && reachable(tx, ty);
              && (!act ==> !saved)
              && (act && secondary ==> (saved <==> MayPlace(heights, deco, old(edits), tx, ty, player)))
              && (act && !secondary ==> (saved <==> MayMine(heights, deco, old(edits), tx, ty)))
              && edits == (if !saved then old(edits)
                           else WithBlock(heights, deco, old(edits), tx, ty, if secondary then selected else Air))
    {
      saved := false;
      if !running {
        return;
      }
      var tx := (wx / TileSize as real).Floor;
      var ty := (wy / TileSize as real).Floor;
      if !reachable(tx, ty) {
        return;
      }
      if secondary {
        if GetBlock(tx, ty) != Air {
          return;
        }
        var tileRx := (tx * TileSize) as real;
        var tileRy := (ty * TileSize) as real;
        var overlap := tileRx < player.x + player.w && tileRx + TileSize as real > player.x
          && tileRy < player.y + player.h && tileRy + TileSize as real > player.y;
        if overlap {
          return;
        }
        var adj := IsSolid(GetBlock(tx + 1, ty)) || IsSolid(GetBlock(tx - 1, ty))
          || IsSolid(GetBlock(tx, ty + 1)) || IsSolid(GetBlock(tx, ty - 1));
        if !adj {
          return;
        }
        SetBlock(tx, ty, selected);
        saved := true;
      } else {
        if GetBlock(tx, ty) == Air {
          return;
        }
        SetBlock(tx, ty, Air);
        saved := true;
      }
    }
  }
}
