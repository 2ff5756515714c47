/**
 The tile world's deterministic base terrain: the seed hash (32-bit FNV-1a over
 the UTF-16 code units of the seed text), the clamped heightmap, the tree
 decorations stamped on top of it, and the classifier that resolves the base
 block of any tile. Tiles are addressed (tx, ty) with ty growing downward.
 */
module TileTerrain {
  import opened JsRuntime

  const WorldW := 220
  const WorldH := 90
  const SeaLevel := 56
  const MinHeight := 26
  const MaxHeight := 66

  /** Block ids 0..6 of the source, in order. */
  datatype Block = Air | Grass | Dirt | Stone | Water | Wood | Leaves

  /** Water is the one non-air block the player walks through. */
  predicate IsSolid(b: Block) {
    b != Air && b != Water
  }

  predicate InWorld(tx: int, ty: int) {
    0 <= tx < WorldW && 0 <= ty < WorldH
  }

  // ---------------------------------------------------------------------------
  // Seed hash: 32-bit FNV-1a

  /** One UTF-16 code unit of a JavaScript string (what `charCodeAt` returns). */
  type CodeUnit = bv16

  const FnvOffsetBasis: bv32 := 2166136261
  const FnvPrime: bv32 := 16777619

  /** Xor the code unit into the low bits, then multiply modulo 2^32 (`Math.imul`). */
  function FnvMix(h: bv32, c: CodeUnit): bv32 {
    (h ^ (c as bv32)) * FnvPrime
  }

  /** FNV-1a of a sequence of code units, folded from the left. */
  function Fnv1a(s: seq<CodeUnit>): bv32 {
    if s == [] then FnvOffsetBasis else FnvMix(Fnv1a(s[..|s| - 1]), s[|s| - 1])
  }

  /** `hashStrToSeed`: the loop over code units, then `>>> 0` to read the bits unsigned. */
  method HashStrToSeed(s: seq<CodeUnit>) returns (seed: int)
    ensures 0 <= seed < 0x1_0000_0000
    ensures seed == Fnv1a(s) as int
  {
    var h := FnvOffsetBasis;
    for i := 0 to |s|
      invariant h == Fnv1a(s[..i])
    {
      assert s[..i + 1][..i] == s[..i];
      h := FnvMix(h, s[i]);
    }
    assert s[..|s|] == s;
    seed := h as int;
  }

  /** The published FNV-1a 32-bit test vectors for "", "a" and "foobar" (code units written out). */
  lemma FnvTestVectors()
    ensures Fnv1a([]) == 0x811c9dc5
    ensures Fnv1a([0x61]) == 0xe40c292c
    ensures Fnv1a([0x66, 0x6f, 0x6f, 0x62, 0x61, 0x72]) == 0xbf9cf968
  {
    assert [0x61 as CodeUnit][..0] == [];
    var f: seq<CodeUnit> := [0x66, 0x6f, 0x6f, 0x62, 0x61, 0x72];
    assert f[..1][..0] == [] && f[..2][..1] == f[..1] && f[..3][..2] == f[..2];
    assert f[..4][..3] == f[..3] && f[..5][..4] == f[..4] && f[..6] == f;
    var h1 := FnvMix(FnvOffsetBasis, 0x66);
    var h2 := FnvMix(h1, 0x6f);
    var h3 := FnvMix(h2, 0x6f);
    var h4 := FnvMix(h3, 0x62);
    var h5 := FnvMix(h4, 0x61);
    assert FnvMix(h5, 0x72) == 0xbf9cf968;
    assert Fnv1a(f[..1]) == h1;
    assert Fnv1a(f[..2]) == h2;
    assert Fnv1a(f[..3]) == h3;
    assert Fnv1a(f[..4]) == h4;
    assert Fnv1a(f[..5]) == h5;
  }

  // ---------------------------------------------------------------------------
  // Tile keys: the string `${x},${y}` used by the decoration and edit maps

  function Key(x: int, y: int): string {
    IntToString(x) + "," + IntToString(y)
  }

  lemma KeyInjective(x1: int, y1: int, x2: int, y2: int)
    ensures Key(x1, y1) == Key(x2, y2) <==> x1 == x2 && y1 == y2
  {
    if Key(x1, y1) == Key(x2, y2) {
      IntToStringHasNoComma(x1);
      IntToStringHasNoComma(x2);
      JoinedBySeparatorInjective(IntToString(x1), IntToString(y1), IntToString(x2), IntToString(y2), ',');
      IntToStringInjective(x1, x2);
      IntToStringInjective(y1, y2);
    }
  }

  /**
   A tile-keyed map. Because `Key` is injective, a map indexed by `Key(x, y)`
   and one indexed by the pair (x, y) hold the same entries for the same tiles;
   the model indexes the decoration and edit maps by the pair.
   */
  type Tile = (int, int)

  // ---------------------------------------------------------------------------
  // Heightmap

  predicate HeightsOk(heights: seq<int>) {
    |heights| == WorldW && forall x :: 0 <= x < WorldW ==> MinHeight <= heights[x] <= MaxHeight
  }

  /**
   Fills the heightmap from the rounded fractal-noise heights of each column
   (`Math.round(base + n1 + n2 + n3)`), clamping each into the valid depth range.
   */
  method BuildHeightMap(rounded: seq<int>) returns (heights: seq<int>)
    requires |rounded| == WorldW
    ensures HeightsOk(heights)
    ensures forall x :: 0 <= x < WorldW ==> heights[x] == Clamp(rounded[x], MinHeight, MaxHeight)
    ensures forall x :: 0 <= x < WorldW && MinHeight <= rounded[x] <= MaxHeight ==> heights[x] == rounded[x]
  {
    var heightMap := new int[WorldW];
    for x := 0 to WorldW
      invariant forall j :: 0 <= j < x ==> heightMap[j] == Clamp(rounded[j], MinHeight, MaxHeight)
    {
      heightMap[x] := Clamp(rounded[x], MinHeight, MaxHeight);
    }
    heights := heightMap[..];
  }

  // ---------------------------------------------------------------------------
  // Tree decorations

  /**
   A draw of the seeded generator, `mulberry32(n)()`, as a number in [0, 1).
   The generator itself is not modelled: it is an input function.
   */
  type Unit = r: real | 0.0 <= r < 1.0

  /** A column may grow a tree: inside the margin, dry with room for a trunk, and a lucky roll. */
  predicate Sprouts(heights: seq<int>, seed: int, rand: int -> Unit, x: int)
    requires |heights| == WorldW
  {
    4 <= x < WorldW - 4 && heights[x] < SeaLevel - 1 && rand(seed + x * 17) <= 0.11
  }

  /** The trunk height of the tree at column x: 4, 5 or 6 tiles. */
  function TrunkHeight(seed: int, rand: int -> Unit, x: int): (h: int)
    ensures 4 <= h <= 6
  {
    4 + (rand(seed + x * 31) * 3.0).Floor
  }

  predicate InTrunk(heights: seq<int>, seed: int, rand: int -> Unit, x: int, y: int)
    requires |heights| == WorldW && 0 <= x < WorldW
  {
    heights[x] - TrunkHeight(seed, rand, x) <= y < heights[x]
  }

  /** (x, y) lies in the 5x5 crown box of the tree at column t. */
  predicate InCrown(heights: seq<int>, seed: int, rand: int -> Unit, t: int, x: int, y: int)
    requires |heights| == WorldW && 0 <= t < WorldW
  {
    var crownY := heights[t] - TrunkHeight(seed, rand, t);
    t - 2 <= x <= t + 2 && crownY - 2 <= y <= crownY + 2
  }

  predicate IsDeco(deco: map<Tile, Block>, x: int, y: int, b: Block) {
    (x, y) in deco && deco[(x, y)] == b
  }

  ghost predicate TreesApart(trees: seq<int>) {
    forall i, j :: 0 <= i < j < |trees| ==> trees[i] + 6 <= trees[j]
  }

  /** Every decoration is wood or leaves, on a tile inside the world. */
  ghost predicate DecoShape(deco: map<Tile, Block>) {
    forall t :: t in deco ==> (deco[t] == Wood || deco[t] == Leaves) && InWorld(t.0, t.1)
  }

  /** Wood is exactly the trunks of the planted trees; each leaf sits in some tree's crown and won its roll. */
  ghost predicate DecoMatches(deco: map<Tile, Block>, trees: seq<int>, heights: seq<int>, seed: int, rand: int -> Unit)
    requires |heights| == WorldW
  {
    && (forall x, y :: IsDeco(deco, x, y, Wood) <==> (x in trees && 0 <= x < WorldW && InTrunk(heights, seed, rand, x, y)))
    && (forall x, y :: IsDeco(deco, x, y, Leaves) ==> InSomeCrown(trees, heights, seed, rand, x, y))
  }

  /** Every in-world tile that is not wood and that a crown covers with a winning roll holds leaves. */
  ghost predicate LeavesComplete(deco: map<Tile, Block>, trees: seq<int>, heights: seq<int>, seed: int, rand: int -> Unit)
    requires |heights| == WorldW
  {
    forall x, y :: InWorld(x, y) && !IsDeco(deco, x, y, Wood) && InSomeCrown(trees, heights, seed, rand, x, y) ==>
      IsDeco(deco, x, y, Leaves)
  }

  /**
   The leaf roll at (ax, ay), offset (dx, dy) from the crown centre, beats the
   chance for its distance: 0.95 within two steps, 0.55 further out.
   */
  predicate LeafGrows(seed: int, rand: int -> Unit, dx: int, dy: int, ax: int, ay: int) {
    var d := (if dx < 0 then -dx else dx) + (if dy < 0 then -dy else dy);
    var chance := if d <= 2 then 0.95 else 0.55;
    rand(seed + ax * 131 + ay * 17) < chance
  }

  /** (x, y) is a tile the crown of the tree at column t may cover with leaves. */
  predicate LeafOf(heights: seq<int>, seed: int, rand: int -> Unit, t: int, x: int, y: int)
    requires |heights| == WorldW && 0 <= t < WorldW
  {
    InCrown(heights, seed, rand, t, x, y)
    && LeafGrows(seed, rand, x - t, y - (heights[t] - TrunkHeight(seed, rand, t)), x, y)
  }

  /** The crown of some planted tree may cover (x, y) with leaves. */
  ghost predicate InSomeCrown(trees: seq<int>, heights: seq<int>, seed: int, rand: int -> Unit, x: int, y: int)
    requires |heights| == WorldW
  {
    exists i :: 0 <= i < |trees| && 0 <= trees[i] < WorldW && LeafOf(heights, seed, rand, trees[i], x, y)
  }

  /** Offset (a - x, b - crownY) of the crown box comes before (dyEnd, dxEnd) in row-major order. */
  predicate CrownVisited(x: int, crownY: int, dyEnd: int, dxEnd: int, a: int, b: int) {
    -2 <= a - x <= 2 && -2 <= b - crownY <= 2 && (b - crownY < dyEnd || (b - crownY == dyEnd && a - x < dxEnd))
  }

  /** Stamps the trunk of a new tree at column x, from the surface upward. */
  method PlantTrunk(heights: seq<int>, seed: int, rand: int -> Unit, ghost trees: seq<int>, x: int,
                    deco0: map<Tile, Block>) returns (deco: map<Tile, Block>)
    requires HeightsOk(heights) && 0 <= x < WorldW && x !in trees
    requires DecoShape(deco0) && DecoMatches(deco0, trees, heights, seed, rand)
    ensures DecoShape(deco)
    ensures DecoMatches(deco, trees + [x], heights, seed, rand)
    ensures forall t: Tile :: !(t.0 == x && InTrunk(heights, seed, rand, x, t.1)) ==>
      (t in deco <==> t in deco0) && (t in deco0 ==> deco[t] == deco0[t])
  {
    deco := deco0;
    var top := heights[x];
    var trunkH := 4 + (rand(seed + x * 31) * 3.0).Floor;
    assert trunkH == TrunkHeight(seed, rand, x);
    for i := 1 to trunkH + 1
      invariant DecoShape(deco)
      invariant forall t: Tile :: !(t.0 == x && top - i < t.1 < top) ==>
        (t in deco <==> t in deco0) && (t in deco0 ==> deco[t] == deco0[t])
      invariant forall a, b :: IsDeco(deco, a, b, Wood) <==>
        ((a in trees && 0 <= a < WorldW && InTrunk(heights, seed, rand, a, b)) || (a == x && top - i < b < top))
      invariant forall a, b :: IsDeco(deco, a, b, Leaves) ==>
        InSomeCrown(trees, heights, seed, rand, a, b)
    {
      ghost var prev := deco;
      deco := deco[(x, top - i) := Wood];
      forall a, b
        ensures IsDeco(deco, a, b, Wood) <==>
          ((a in trees && 0 <= a < WorldW && InTrunk(heights, seed, rand, a, b)) || (a == x && top - (i + 1) < b < top))
        ensures IsDeco(deco, a, b, Leaves) ==> IsDeco(prev, a, b, Leaves)
      {
        if a != x || b != top - i {
          assert IsDeco(deco, a, b, Wood) == IsDeco(prev, a, b, Wood);
          assert IsDeco(deco, a, b, Leaves) == IsDeco(prev, a, b, Leaves);
        }
      }
    }
    ghost var grown := trees + [x];
    forall a, b | IsDeco(deco, a, b, Leaves)
      ensures InSomeCrown(grown, heights, seed, rand, a, b)
    {
      var j :| 0 <= j < |trees| && 0 <= trees[j] < WorldW && LeafOf(heights, seed, rand, trees[j], a, b);
      assert grown[j] == trees[j];
    }
  }

  /**
   The crown of the tree at column x with crown centre row crownY has been
   stamped on deco0 for the offsets before (dyEnd, dxEnd): wood is as before,
   and the leaves are the old ones plus each in-world tile visited whose roll
   won and that was not wood.
   */
  ghost predicate CrownSoFar(heights: seq<int>, seed: int, rand: int -> Unit, x: int, crownY: int,
                             deco0: map<Tile, Block>, deco: map<Tile, Block>, dyEnd: int, dxEnd: int)
    requires |heights| == WorldW && 0 <= x < WorldW
  {
    && DecoShape(deco)
    && (forall a, b :: IsDeco(deco, a, b, Wood) <==> IsDeco(deco0, a, b, Wood))
    && (forall a, b :: IsDeco(deco, a, b, Leaves) <==>
          IsDeco(deco0, a, b, Leaves) || (InWorld(a, b) && CrownVisited(x, crownY, dyEnd, dxEnd, a, b)
                                          && LeafOf(heights, seed, rand, x, a, b) && !IsDeco(deco0, a, b, Wood)))
  }

  /** Covers the 5x5 crown box of the newest tree with leaves wherever its roll wins, sparing wood. */
  method GrowCrown(heights: seq<int>, seed: int, rand: int -> Unit, ghost trees: seq<int>, x: int,
                   deco0: map<Tile, Block>) returns (deco: map<Tile, Block>)
    requires HeightsOk(heights) && trees != [] && x == trees[|trees| - 1] && 0 <= x < WorldW
    requires DecoShape(deco0) && DecoMatches(deco0, trees, heights, seed, rand)
    ensures DecoShape(deco)
    ensures DecoMatches(deco, trees, heights, seed, rand)
    ensures forall a, b :: IsDeco(deco, a, b, Wood) <==> IsDeco(deco0, a, b, Wood)
    ensures forall a, b :: IsDeco(deco, a, b, Leaves) <==>
      IsDeco(deco0, a, b, Leaves) || (InWorld(a, b) && LeafOf(heights, seed, rand, x, a, b) && !IsDeco(deco0, a, b, Wood))
  {
    deco := deco0;
    var crownY := heights[x] - TrunkHeight(seed, rand, x);
    for dy := -2 to 3
      invariant CrownSoFar(heights, seed, rand, x, crownY, deco0, deco, dy, -2)
    {
      deco := CrownRow(heights, seed, rand, x, crownY, dy, deco0, deco);
    }
    forall a, b | IsDeco(deco, a, b, Leaves)
      ensures InSomeCrown(trees, heights, seed, rand, a, b)
    {
      if !IsDeco(deco0, a, b, Leaves) {
        assert LeafOf(heights, seed, rand, trees[|trees| - 1], a, b);
      }
    }
  }

  /** One row dy of the crown box, offsets dx from -2 to 2. */
  method CrownRow(heights: seq<int>, seed: int, rand: int -> Unit, x: int, crownY: int, dy: int,
                  ghost deco0: map<Tile, Block>, deco1: map<Tile, Block>) returns (deco: map<Tile, Block>)
    requires HeightsOk(heights) && 0 <= x < WorldW && crownY == heights[x] - TrunkHeight(seed, rand, x)
    requires -2 <= dy <= 2
    requires CrownSoFar(heights, seed, rand, x, crownY, deco0, deco1, dy, -2)
    ensures CrownSoFar(heights, seed, rand, x, crownY, deco0, deco, dy + 1, -2)
  {
    deco := deco1;
    for dx := -2 to 3
      invariant CrownSoFar(heights, seed, rand, x, crownY, deco0, deco, dy, dx)
    {
      deco := CrownCell(heights, seed, rand, x, crownY, dy, dx, deco0, deco);
    }
    assert forall a, b :: CrownVisited(x, crownY, dy, 3, a, b) == CrownVisited(x, crownY, dy + 1, -2, a, b);
  }

  /** The leaf roll of crown offset (dx, dy): an in-world, non-wood tile whose roll wins becomes leaves. */
  method CrownCell(heights: seq<int>, seed: int, rand: int -> Unit, x: int, crownY: int, dy: int, dx: int,
                   ghost deco0: map<Tile, Block>, deco1: map<Tile, Block>) returns (deco: map<Tile, Block>)
    requires HeightsOk(heights) && 0 <= x < WorldW && crownY == heights[x] - TrunkHeight(seed, rand, x)
    requires -2 <= dx <= 2 && -2 <= dy <= 2
    requires CrownSoFar(heights, seed, rand, x, crownY, deco0, deco1, dy, dx)
    ensures CrownSoFar(heights, seed, rand, x, crownY, deco0, deco, dy, dx + 1)
  {
    deco := deco1;
    var ax := x + dx;
    var ay := crownY + dy;
    if ax < 0 || ax >= WorldW || ay < 0 || ay >= WorldH {
      CrownStep(heights, seed, rand, x, crownY, dy, dx, deco0, deco1, deco);
      return;
    }
    var d := (if dx < 0 then -dx else dx) + (if dy < 0 then -dy else dy);
    var chance := if d <= 2 then 0.95 else 0.55;
    var grows := rand(seed + ax * 131 + ay * 17) < chance;
    assert grows == LeafOf(heights, seed, rand, x, ax, ay);
    if grows && !((ax, ay) in deco && deco[(ax, ay)] == Wood) {
      deco := deco[(ax, ay) := Leaves];
    }
    CrownStep(heights, seed, rand, x, crownY, dy, dx, deco0, deco1, deco);
  }

  /**
   The bookkeeping of one crown offset: when only the tile at the offset may
   change, and it holds leaves afterwards iff it did before or it is an
   in-world tile whose roll won and that is not wood, the stamped part of the
   crown grows by that offset.
   */
  lemma CrownStep(heights: seq<int>, seed: int, rand: int -> Unit, x: int, crownY: int, dy: int, dx: int,
                  deco0: map<Tile, Block>, deco1: map<Tile, Block>, deco: map<Tile, Block>)
    requires HeightsOk(heights) && 0 <= x < WorldW && crownY == heights[x] - TrunkHeight(seed, rand, x)
    requires -2 <= dx <= 2 && -2 <= dy <= 2
    requires CrownSoFar(heights, seed, rand, x, crownY, deco0, deco1, dy, dx)
    requires forall t :: t in deco ==> t in deco1 || (t == (x + dx, crownY + dy) && InWorld(t.0, t.1) && deco[t] == Leaves)
    requires forall t :: t in deco1 ==> t in deco && (t != (x + dx, crownY + dy) ==> deco[t] == deco1[t])
    requires IsDeco(deco, x + dx, crownY + dy, Wood) == IsDeco(deco1, x + dx, crownY + dy, Wood)
    requires IsDeco(deco, x + dx, crownY + dy, Leaves) <==>
      IsDeco(deco1, x + dx, crownY + dy, Leaves)
      || (InWorld(x + dx, crownY + dy) && LeafOf(heights, seed, rand, x, x + dx, crownY + dy) && !IsDeco(deco1, x + dx, crownY + dy, Wood))
    ensures CrownSoFar(heights, seed, rand, x, crownY, deco0, deco, dy, dx + 1)
  {
    CrownVisitedStep(x, crownY, dy, dx);
    forall a, b
      ensures IsDeco(deco, a, b, Wood) <==> IsDeco(deco0, a, b, Wood)
      ensures IsDeco(deco, a, b, Leaves) <==>
        IsDeco(deco0, a, b, Leaves) || (InWorld(a, b) && CrownVisited(x, crownY, dy, dx + 1, a, b)
                                        && LeafOf(heights, seed, rand, x, a, b) && !IsDeco(deco0, a, b, Wood))
    {
      if a != x + dx || b != crownY + dy {
        var t := (a, b);
        assert t in deco <==> t in deco1;
        assert IsDeco(deco, a, b, Leaves) == IsDeco(deco1, a, b, Leaves);
        assert CrownVisited(x, crownY, dy, dx + 1, a, b) == CrownVisited(x, crownY, dy, dx, a, b);
      }
    }
  }

  /** Visiting offset (dx, dy) adds exactly its own tile to the visited part of the crown box. */
  lemma CrownVisitedStep(x: int, crownY: int, dy: int, dx: int)
    requires -2 <= dx <= 2 && -2 <= dy <= 2
    ensures forall a, b :: CrownVisited(x, crownY, dy, dx + 1, a, b) ==>
      CrownVisited(x, crownY, dy, dx, a, b) || (a == x + dx && b == crownY + dy)
    ensures forall a, b :: CrownVisited(x, crownY, dy, dx, a, b) ==> CrownVisited(x, crownY, dy, dx + 1, a, b)
    ensures CrownVisited(x, crownY, dy, dx + 1, x + dx, crownY + dy)
  {
  }

  /**
   The scan's bookkeeping once columns 4..x-1 are done: the trees so far, in
   order and at least 6 apart, all sprouting columns before x; every sprouting
   column before x that is no tree lies within five columns after one; and the
   last planted column is remembered (-999 before the first).
   */
  ghost predicate TreeScan(heights: seq<int>, seed: int, rand: int -> Unit, trees: seq<int>, lastTreeX: int, x: int)
    requires |heights| == WorldW
  {
    && lastTreeX == (if trees == [] then -999 else trees[|trees| - 1])
    && (forall i :: 0 <= i < |trees| ==> trees[i] < x && Sprouts(heights, seed, rand, trees[i]))
    && TreesApart(trees)
    && (forall c :: c < x && Sprouts(heights, seed, rand, c) ==>
          c in trees || exists i :: 0 <= i < |trees| && 0 < c - trees[i] < 6)
  }

  /** Skipping a column that does not sprout, or that follows the last tree too closely, keeps the scan. */
  lemma SkipKeepsScan(heights: seq<int>, seed: int, rand: int -> Unit, trees: seq<int>, lastTreeX: int, x: int)
    requires |heights| == WorldW && TreeScan(heights, seed, rand, trees, lastTreeX, x)
    requires !Sprouts(heights, seed, rand, x) || x - lastTreeX < 6
    ensures TreeScan(heights, seed, rand, trees, lastTreeX, x + 1)
  {
    if Sprouts(heights, seed, rand, x) {
      assert 0 < x - trees[|trees| - 1] < 6;
    }
  }

  /** Planting at a sprouting column at least 6 past the last tree keeps the scan. */
  lemma PlantKeepsScan(heights: seq<int>, seed: int, rand: int -> Unit, trees: seq<int>, lastTreeX: int, x: int)
    requires |heights| == WorldW && TreeScan(heights, seed, rand, trees, lastTreeX, x)
    requires Sprouts(heights, seed, rand, x) && x - lastTreeX >= 6
    ensures x !in trees
    ensures TreeScan(heights, seed, rand, trees + [x], x, x + 1)
  {
    var grown := trees + [x];
    assert forall i :: 0 <= i < |trees| ==> grown[i] == trees[i];
    ApartAfterPlant(trees, lastTreeX, x);
    forall c | c < x + 1 && Sprouts(heights, seed, rand, c)
      ensures c in grown || exists i :: 0 <= i < |grown| && 0 < c - grown[i] < 6
    {
      if c < x && c !in trees {
        var i :| 0 <= i < |trees| && 0 < c - trees[i] < 6;
        assert grown[i] == trees[i];
      }
    }
  }

  /** A tree planted at least 6 columns after the last one keeps the trees apart. */
  lemma ApartAfterPlant(trees: seq<int>, lastTreeX: int, x: int)
    requires TreesApart(trees) && lastTreeX == (if trees == [] then -999 else trees[|trees| - 1])
    requires x - lastTreeX >= 6
    ensures TreesApart(trees + [x])
  {
    var grown := trees + [x];
    forall i, j | 0 <= i < j < |grown|
      ensures grown[i] + 6 <= grown[j]
    {
      if j == |trees| {
        assert grown[i] <= lastTreeX by {
          if i < |trees| - 1 {
            assert trees[i] + 6 <= trees[|trees| - 1];
          }
        }
      } else {
        assert grown[i] == trees[i] && grown[j] == trees[j];
      }
    }
  }

  /**
   The decoration pass: scans columns 4..WorldW-5, plants a tree where the
   column sprouts and the previous tree is at least 6 columns back, stamps its
   trunk and then a crown of leaves that never replaces wood.
   */
  method Decorate(heights: seq<int>, seed: int, rand: int -> Unit) returns (deco: map<Tile, Block>, ghost trees: seq<int>)
    requires HeightsOk(heights)
    ensures DecoShape(deco)
    ensures DecoMatches(deco, trees, heights, seed, rand)
    ensures TreesApart(trees)
    ensures forall i :: 0 <= i < |trees| ==> Sprouts(heights, seed, rand, trees[i])
    ensures forall x :: Sprouts(heights, seed, rand, x) ==>
      x in trees || exists i :: 0 <= i < |trees| && 0 < x - trees[i] < 6
    ensures forall x, y :: IsDeco(deco, x, y, Leaves) <==>
      InWorld(x, y) && !IsDeco(deco, x, y, Wood) && InSomeCrown(trees, heights, seed, rand, x, y)
  {
    deco := map[];
    trees := [];
    var lastTreeX := -999;
    for x := 4 to WorldW - 4
      invariant TreeScan(heights, seed, rand, trees, lastTreeX, x)
      invariant DecoShape(deco)
      invariant DecoMatches(deco, trees, heights, seed, rand)
      invariant LeavesComplete(deco, trees, heights, seed, rand)
    {
      var top := heights[x];
      if top >= SeaLevel - 1 {
        SkipKeepsScan(heights, seed, rand, trees, lastTreeX, x);
        continue;
      }
      if x - lastTreeX < 6 {
        SkipKeepsScan(heights, seed, rand, trees, lastTreeX, x);
        continue;
      }
      var r := rand(seed + x * 17);
      if r > 0.11 {
        SkipKeepsScan(heights, seed, rand, trees, lastTreeX, x);
        continue;
      }
      PlantKeepsScan(heights, seed, rand, trees, lastTreeX, x);
      ghost var bare := deco;
      deco := PlantTrunk(heights, seed, rand, trees, x, deco);
      TrunkKeepsLeaves(heights, seed, rand, trees, x, bare, deco);
      lastTreeX := x;
      ghost var older := trees;
      trees := trees + [x];
      ghost var trunked := deco;
      deco := GrowCrown(heights, seed, rand, trees, x, deco);
      CrownCompletesLeaves(heights, seed, rand, older, x, trunked, deco);
    }
  }

  /** A new trunk takes no leaf a crown of the earlier trees owes. */
  lemma TrunkKeepsLeaves(heights: seq<int>, seed: int, rand: int -> Unit, trees: seq<int>, x: int,
                         deco0: map<Tile, Block>, deco: map<Tile, Block>)
    requires HeightsOk(heights) && 0 <= x < WorldW
    requires LeavesComplete(deco0, trees, heights, seed, rand)
    requires DecoMatches(deco, trees + [x], heights, seed, rand)
    requires forall t: Tile :: !(t.0 == x && InTrunk(heights, seed, rand, x, t.1)) ==>
      (t in deco <==> t in deco0) && (t in deco0 ==> deco[t] == deco0[t])
    ensures LeavesComplete(deco, trees, heights, seed, rand)
  {
    forall a, b | InWorld(a, b) && !IsDeco(deco, a, b, Wood) && InSomeCrown(trees, heights, seed, rand, a, b)
      ensures IsDeco(deco, a, b, Leaves)
    {
      assert x in trees + [x];
      var t: Tile := (a, b);
      assert !(t.0 == x && InTrunk(heights, seed, rand, x, t.1));
      assert IsDeco(deco0, a, b, Wood) == IsDeco(deco, a, b, Wood);
      assert IsDeco(deco0, a, b, Leaves);
    }
  }

  /** The crown of the newest tree supplies every leaf it owes, and those the earlier crowns owe are kept. */
  lemma CrownCompletesLeaves(heights: seq<int>, seed: int, rand: int -> Unit, trees: seq<int>, x: int,
                             deco0: map<Tile, Block>, deco: map<Tile, Block>)
    requires HeightsOk(heights) && 0 <= x < WorldW
    requires LeavesComplete(deco0, trees, heights, seed, rand)
    requires forall a, b :: IsDeco(deco, a, b, Wood) <==> IsDeco(deco0, a, b, Wood)
    requires forall a, b :: IsDeco(deco, a, b, Leaves) <==>
      IsDeco(deco0, a, b, Leaves) || (InWorld(a, b) && LeafOf(heights, seed, rand, x, a, b) && !IsDeco(deco0, a, b, Wood))
    ensures LeavesComplete(deco, trees + [x], heights, seed, rand)
  {
    ghost var grown := trees + [x];
    forall a, b | InWorld(a, b) && !IsDeco(deco, a, b, Wood) && InSomeCrown(grown, heights, seed, rand, a, b)
      ensures IsDeco(deco, a, b, Leaves)
    {
      var i :| 0 <= i < |grown| && 0 <= grown[i] < WorldW && LeafOf(heights, seed, rand, grown[i], a, b);
      if i < |trees| {
        assert grown[i] == trees[i];
        assert InSomeCrown(trees, heights, seed, rand, a, b);
      }
    }
  }

  // ---------------------------------------------------------------------------
  // Base block classifier

  /** `baseBlock`: stone outside the world, else the decoration, else sky, sea, grass, dirt or stone. */
  function BaseBlock(heights: seq<int>, deco: map<Tile, Block>, tx: int, ty: int): Block
    requires |heights| == WorldW
  {
    if tx < 0 || tx >= WorldW || ty < 0 || ty >= WorldH then Stone
    else if (tx, ty) in deco then deco[(tx, ty)]
    else
      var hTop := heights[tx];
      if ty < hTop then
        if ty >= SeaLevel && ty < hTop then Water else Air
      else if ty == hTop then Grass
      else if ty <= hTop + 4 then Dirt
      else Stone
  }

  /** Depth order of undecorated terrain from the sky down. */
  function Stratum(b: Block): nat {
    match b
    case Air => 0
    case Water => 1
    case Grass => 2
    case Dirt => 3
    case _ => 4
  }

  /**
   Down any undecorated column the layers never go back up: sky, sea, one grass
   tile, dirt, stone.
   */
  lemma ColumnIsLayered(heights: seq<int>, deco: map<Tile, Block>, tx: int, y1: int, y2: int)
    requires |heights| == WorldW && 0 <= tx < WorldW && 0 <= y1 <= y2 < WorldH
    requires (tx, y1) !in deco && (tx, y2) !in deco
    ensures Stratum(BaseBlock(heights, deco, tx, y1)) <= Stratum(BaseBlock(heights, deco, tx, y2))
  {
  }

  /** An undecorated, in-world tile is grass exactly on the surface row of its column. */
  lemma GrassIsSurface(heights: seq<int>, deco: map<Tile, Block>, tx: int, ty: int)
    requires |heights| == WorldW && InWorld(tx, ty) && (tx, ty) !in deco
    ensures BaseBlock(heights, deco, tx, ty) == Grass <==> ty == heights[tx]
  {
  }

  /** The dirt band under the surface is exactly four tiles thick. */
  lemma DirtBand(heights: seq<int>, deco: map<Tile, Block>, tx: int, ty: int)
    requires |heights| == WorldW && InWorld(tx, ty) && (tx, ty) !in deco
    ensures BaseBlock(heights, deco, tx, ty) == Dirt <==> heights[tx] < ty <= heights[tx] + 4
  {
  }

  /**
   The sea is level: an undecorated tile above its column's surface is water
   exactly when it is at or below sea level, whatever the column.
   */
  lemma SeaIsLevel(heights: seq<int>, deco: map<Tile, Block>, tx: int, ty: int)
    requires |heights| == WorldW && InWorld(tx, ty) && (tx, ty) !in deco && ty < heights[tx]
    ensures BaseBlock(heights, deco, tx, ty) == Water <==> ty >= SeaLevel
    ensures BaseBlock(heights, deco, tx, ty) == Air <==> ty < SeaLevel
  {
  }

  /** Outside the world every tile is stone; inside, a decoration always wins. */
  lemma BaseBlockBoundsAndDecoration(heights: seq<int>, deco: map<Tile, Block>, tx: int, ty: int)
    requires |heights| == WorldW
    ensures !InWorld(tx, ty) ==> BaseBlock(heights, deco, tx, ty) == Stone
    ensures InWorld(tx, ty) && (tx, ty) in deco ==> BaseBlock(heights, deco, tx, ty) == deco[(tx, ty)]
  {
  }

  /**
   With the decorations the tree pass produces, trunks stand on dry land: every
   wood tile is above sea level and above its column's surface.
   */
  lemma {:induction false} TrunksAreDry(heights: seq<int>, seed: int, rand: int -> Unit,
                                        deco: map<Tile, Block>, trees: seq<int>, x: int, y: int)
    requires HeightsOk(heights)
    requires DecoMatches(deco, trees, heights, seed, rand)
    requires forall i :: 0 <= i < |trees| ==> Sprouts(heights, seed, rand, trees[i])
    requires IsDeco(deco, x, y, Wood)
    ensures 0 <= x < WorldW && y < heights[x] && y < SeaLevel - 1
    ensures BaseBlock(heights, deco, x, y) == Wood
  {
    var i :| 0 <= i < |trees| && trees[i] == x;
    assert Sprouts(heights, seed, rand, trees[i]);
  }
}
