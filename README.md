# Falling sand, tile terrain and a contact-form bot filter, in Dafny

This project models the algorithmic core of a personal portfolio site. Three
parts are modelled and their properties proved.

- **The powder sandbox** is a falling-sand cellular automaton on a 160 x 96
  grid of cell kinds: empty, sand, water, wall, bomb, fire, oil and gunpowder.
  - Two parallel typed arrays sit beside the grid: a fire lifetime per cell
    (`Uint8Array`) and a bomb fuse per cell (`Uint16Array`).
  - Each frame it paints with the brush, lets the player push bombs, runs an
    ignition pass, runs a bottom-up movement pass whose row direction
    alternates with the frame, and ticks the bomb fuses.
  - It is modelled as the class `PowderSandbox.Sandbox`. The class holds the
    three arrays and the frame counter. Every pass is a method with loop
    invariants.
  - The pure rules sit in module `PowderRules`:
    - the flat index;
    - the brush disc and the blast disc;
    - each kind's move target;
    - water's sideways spread;
    - fire's neighbour search;
    - the scan order;
    - the outcome predicates that state what one ignition, explosion or
      catch does to the three arrays.
- **The tile world** is 220 x 90 tiles.
  - Its base terrain comes from a heightmap clamped to rows 26..66 and a sea
    level at row 56. Trees are stamped on it as trunks of wood and crowns of
    leaves (`TileTerrain`).
  - The seed text is hashed with 32-bit FNV-1a over its UTF-16 code units.
  - The player's changes are a sparse overlay of edits (`TileWorld.World`).
    The overlay is kept *reconciled*: no stored edit equals the base block of
    its tile, and no edit lies outside the world.
  - A pointer press mines or places one block, subject to the placement rules.
- **The contact form's bot filter** (`ContactForm`) runs six checks in a fixed
  order: rate limit, honeypot field, arithmetic captcha, name equal to the
  user part of the e-mail, message shorter than ten characters, and spam
  keywords. The first check that fails decides the error.

Two modules model JavaScript built-ins:

- `JsRuntime` covers `Math.max(min, Math.min(max, n))`, template-literal
  formatting of integers, `parseInt` without a radix, ASCII `toLowerCase`,
  `includes` and `split(sep)[0]`.
- `TileTerrain` models `Math.imul` and `>>> 0` as `bv32` arithmetic.

Randomness is modelled in two ways:

- Each `Math.random()` draw in the sandbox is a nondeterministic choice
  inside the method, written as `var b: bool := *` or
  `var t :| 10 <= t < 20`. Every contract holds for every outcome of every
  draw.
- The seeded generator `mulberry32(n)()` of the tile world is an input
  function `rand: int -> Unit`. Terrain is deterministic for a given seed, and
  the proofs hold for every such function.

### Where the model follows the code rather than the description

- Bombs never fall: the movement pass has no rule for kind 4. The model has
  none either.
- Particles can reach the one-cell border that the passes never visit:
  - fire drifts into row 0 from row 1;
  - a bomb's spark can land in column 0 or W-1;
  - grains and liquids fall or slide from row H-2 into row H-1, and move
    diagonally or sideways from columns 1 and W-2 into columns 0 and W-1;
  - water's sideways spread probes flat indices `i + dir * dist`, so from
    the first or last interior columns it can wrap into the neighbouring row.
  The model keeps all four effects. `Probe` computes the same flat index,
  written without multiplication.
- Within one movement pass, a cell can be visited twice:
  - a grain or liquid that moves sideways in the scan direction;
  - a fire that drifts up into the next row to be scanned.
  The model scans exactly as the code does, so this happens in the model too.
- In the contact form, a successful submission sets `submissionCount` to 1
  and never increments it (src/components/Contact.tsx:126-127). The rate-limit
  branch therefore cannot fire in the running component. The model keeps the
  check, with the counter as an input.
- The initial captcha state has answer 0 before the first one is generated.
  The filter rejects every submission that reaches the captcha check in that
  state (`ContactForm.InitialCaptchaRejects`).

## Model

| member | source | states |
|---|---|---|
| JsRuntime.Clamp | src/components/PowderSandbox.tsx:11-13 | The result is never below min. It is never above max when min <= max, it equals n inside the range, and it is the nearer bound outside it. |
| JsRuntime.NatToString | src/components/MinecraftLite.tsx:39-41 | The decimal text of n is non-empty and all digits. Its value is n. It has no leading zero unless n is 0. |
| JsRuntime.NatToStringInjective | src/components/MinecraftLite.tsx:39-41 | Two naturals have the same decimal text iff they are equal. |
| JsRuntime.IntToStringInjective | src/components/MinecraftLite.tsx:39-41 | `${x}` determines x, negatives included. |
| JsRuntime.IntToStringHasNoComma | src/components/MinecraftLite.tsx:39-41 | The text of an integer never contains the comma the tile key uses as separator. |
| JsRuntime.JoinedBySeparatorInjective | src/components/MinecraftLite.tsx:39-41 | a + sep + b determines a and b when neither contains sep. |
| JsRuntime.TrimStart | src/components/Contact.tsx:55 | parseInt's leading-whitespace skip: the result is a suffix of s that does not start with white space, and every character dropped is white space. |
| JsRuntime.DigitRun | src/components/Contact.tsx:55 | The length of the longest prefix of radix digits: all of it are digits, and the next character is not. |
| JsRuntime.SplitNumeral | src/components/Contact.tsx:55 | The digit text parseInt reads after the sign and the optional 0x prefix is no longer than s. |
| JsRuntime.ParseInt | src/components/Contact.tsx:55-56 | parseInt yields NaN exactly when no digit follows the sign and prefix. |
| JsRuntime.ParseIntOfDecimal | src/components/Contact.tsx:55-56 | parseInt reads back the decimal text of n, followed by anything that starts with neither a digit nor an x. The value is the exact integer, not a double (see "## Left out"). |
| JsRuntime.ParseIntOfDigits | src/components/Contact.tsx:55 | A text that starts with a digit and without a 0x prefix is read in base ten, up to its first non-digit. |
| JsRuntime.TrimStartOfWhiteSpace | src/components/Contact.tsx:55 | parseInt's first step removes exactly the leading white space and line terminators. |
| JsRuntime.SplitNumeralOfSigned | src/components/Contact.tsx:55 | After white space, an optional sign and an optional 0x or 0X, the sign is negative iff it is '-', the base is 16 iff the prefix is there, and the digit text is what follows. |
| JsRuntime.ParseIntOfDecimalNumeral | src/components/Contact.tsx:55-56 | White space, an optional sign and decimal digits ended by a non-digit read as the digits' value, negated after '-'. The value is the exact integer, not a double (see "## Left out"). |
| JsRuntime.ReadDigitsOfDecimalRun | src/components/Contact.tsx:55-56 | After the sign and base are read, a full run of decimal digits followed by a non-digit gives the run's decimal value, negated after '-'. The value is the exact integer, not a double (see "## Left out"). |
| JsRuntime.ParseIntOfSignedNat | src/components/Contact.tsx:55-56 | `parseInt(ws + sign + String(n) + rest)` is n, or -n after '-'. The value is the exact integer, not a double (see "## Left out"). |
| JsRuntime.ParseIntOfHexNumeral | src/components/Contact.tsx:55-56 | White space, an optional sign, 0x or 0X and hexadecimal digits ended by a non-hex character read as their base-16 value, negated after '-'. The value is the exact integer, not a double (see "## Left out"). |
| JsRuntime.ParseIntOfHexTwenty | src/components/Contact.tsx:55 | "0x14" reads as 20. |
| JsRuntime.LowerChar | src/components/Contact.tsx:65 | ASCII upper-case letters map to their lower-case letter. Every other character is kept. |
| JsRuntime.ToLower | src/components/Contact.tsx:75 | `toLowerCase` keeps the length and lowers each character in place. |
| JsRuntime.Contains | src/components/Contact.tsx:76 | `includes`: true iff t occurs in s at some position. |
| JsRuntime.BeforeFirst | src/components/Contact.tsx:65 | `split(sep)[0]` is the longest prefix without sep, and it stops at the first sep. |
| PowderRules.IdxCoords | src/components/PowderSandbox.tsx:15-17 | idx of an in-grid cell lies in 0..N-1, and its column and row read back x and y. |
| PowderRules.CoordsIdx | src/components/PowderSandbox.tsx:15-17 | Every flat index is idx of its own column and row. |
| PowderRules.IdxInjective | src/components/PowderSandbox.tsx:15-17 | idx is injective on the grid: equal indices iff equal coordinates. |
| PowderRules.NeighboursInGrid | src/components/PowderSandbox.tsx:271-277 | The 3x3 neighbourhood read by the ignition test of an interior cell lies inside the arrays. |
| PowderRules.PaintedAll | src/components/PowderSandbox.tsx:95-110 | After the row-major visit of all brush offsets, the offsets visited are exactly those of the brush disc. |
| PowderRules.PaintStaysInside | src/components/PowderSandbox.tsx:95-100 | Every painted cell is interior: clamping keeps the brush off the border. |
| PowderRules.PaintCoversDisc | src/components/PowderSandbox.tsx:95-100 | Every interior cell within the brush disc around the pointer is painted. |
| PowderRules.Swap | src/components/PowderSandbox.tsx:308-310 | Exchanging two cells swaps their kinds, keeps every other cell and keeps the kind multiset. |
| PowderRules.MovePreservesKinds | src/components/PowderSandbox.tsx:305-327 | A move, with or without a target, keeps the grid's length and kind multiset. |
| PowderRules.GrainTarget | src/components/PowderSandbox.tsx:305-327 | A grain moves into a displaceable cell below or diagonally below. Straight down wins. Then the preferred diagonal, then the other. It stays exactly when none of the three is displaceable. Gunpowder uses the same rule. |
| PowderRules.SpreadFrom | src/components/PowderSandbox.tsx:357-370 | A found spread target is an empty cell at most 5 cells away, other than the water's own cell. |
| PowderRules.SpreadFromIsFirstEmpty | src/components/PowderSandbox.tsx:357-370 | When a target is found, every cell probed before it is water or oil. When none is found, the probe hit a cell that is neither, or none of the five is empty. |
| PowderRules.WaterTarget | src/components/PowderSandbox.tsx:330-377 | Water moves only into an empty cell or into oil straight below. An empty or oily cell below always wins. |
| PowderRules.WaterTargetPriority | src/components/PowderSandbox.tsx:330-377 | Otherwise the empty diagonal below on the FirstDir side wins, then the one on the other side, then the spread toward the FirstDir side, then toward the other. Water stays iff all of these fail. |
| PowderRules.OilTarget | src/components/PowderSandbox.tsx:381-400 | Oil moves only into the cell below or beside it, and only into an empty cell or into water below. It stays iff the cell below is neither empty nor water and both neighbours beside it are occupied. |
| PowderRules.OilTargetPriority | src/components/PowderSandbox.tsx:381-400 | An empty or watery cell below wins. Otherwise the empty neighbour on the FirstDir side wins, then the one on the other side. |
| PowderRules.SpreadIsBounded | src/components/PowderSandbox.tsx:357-370 | A spread moves water 1 to 5 cells, into an empty cell, across nothing but water and oil. |
| PowderRules.MoveTarget | src/components/PowderSandbox.tsx:303-424 | Only sand, water, oil and gunpowder move, and only into empty, water or oil cells. Walls, bombs, fire and empty cells have no target. |
| PowderRules.MoveConserves | src/components/PowderSandbox.tsx:303-424 | Every move of the movement pass rearranges the grid: same kind multiset, and walls, bombs and fire stay put. |
| PowderRules.RearrangedTransitive | src/components/PowderSandbox.tsx:295-457 | Rearrangements compose, so a whole pass of moves is one rearrangement. |
| PowderRules.RearrangedKeepsCalm | src/components/PowderSandbox.tsx:295-457 | A rearrangement lights no fire and moves no bomb away from its fuse. |
| PowderRules.Max | src/components/PowderSandbox.tsx:134 | `Math.max`: no smaller than either argument, and equal to one of them. |
| PowderRules.SpreadDirs | src/components/PowderSandbox.tsx:439 | Both orders of fire's neighbour search list four unit steps along one axis. |
| PowderRules.FirstFlammable | src/components/PowderSandbox.tsx:440-452 | A found neighbour is oil or gunpowder, at a position from k on. |
| PowderRules.FirstFlammableIsFirst | src/components/PowderSandbox.tsx:440-452 | No neighbour searched before the one found, and none at all when nothing is found, is oil or gunpowder. |
| PowderRules.RowOrderAt | src/components/PowderSandbox.tsx:299-302 | The k-th column visited is 1+k scanning forward and W-2-k scanning backward. |
| PowderRules.RowOrderIsPermutation | src/components/PowderSandbox.tsx:295-302 | Each row's scan visits every interior column exactly once, in increasing or decreasing order. |
| PowderRules.PassOrderAt | src/components/PowderSandbox.tsx:295 | The first k + 1 rows of the pass are the first k, then row H-2-k. |
| PowderRules.PassOrderIsPermutation | src/components/PowderSandbox.tsx:295 | The pass visits every interior row exactly once, in decreasing order. |
| PowderRules.RowFold | src/components/PowderSandbox.tsx:299-455 | The grid after a row's visits, each applying `Move` to `MoveTarget` on the grid the earlier visits left; its length is kept. |
| PowderRules.RowFoldSnoc | src/components/PowderSandbox.tsx:299-455 | Visiting one more column applies that column's rule to the grid the row so far produced. |
| PowderRules.PassFold | src/components/PowderSandbox.tsx:295-457 | The grid after rows visited in turn, each by its `RowFold` in its scan order; its length is kept. |
| PowderRules.PassFoldSnoc | src/components/PowderSandbox.tsx:295-457 | Visiting one more row applies that row's fold to the grid the earlier rows produced. |
| PowderRules.RowFoldRearranges | src/components/PowderSandbox.tsx:299-455 | A row's visits only rearrange the grid: kinds conserved, walls, bombs and fire in place. |
| PowderRules.PassFoldRearranges | src/components/PowderSandbox.tsx:295-457 | The whole pass only rearranges the grid. |
| PowderSandbox.PushOf | src/components/PowderSandbox.tsx:219-223 | A blocked horizontal move pushes in the sign of vx, at the floor of the front column, over the floor range of the player's rows. There is no push when vx is 0. |
| PowderSandbox.PushSkipsRow | src/components/PowderSandbox.tsx:225-229 | A row on the border, or without a bomb before an empty cell, leaves both arrays unchanged. |
| PowderSandbox.PushMovesRow | src/components/PowderSandbox.tsx:227-234 | A row with a bomb in front of an empty cell moves the bomb and its fuse one cell on, leaving empty with fuse 0. |
| PowderSandbox.Sandbox.constructor | src/components/PowderSandbox.tsx:32-34 | The three arrays start zero-filled: every cell empty with lifetime and fuse 0. |
| PowderSandbox.Sandbox.Clear | src/components/PowderSandbox.tsx:49-52 | Every cell becomes empty with lifetime and fuse 0. |
| PowderSandbox.Sandbox.Paint | src/components/PowderSandbox.tsx:87-111 | Without a press nothing changes. With one, every cell of the clamped disc gets the tool, or empty when erasing. Fire gets lifetime 16, a bomb fuse 0, empty both 0. Every other cell keeps all three values. |
| PowderSandbox.Sandbox.PaintRow | src/components/PowderSandbox.tsx:96-109 | One row of brush offsets extends the painted region by exactly that row's hits. |
| PowderSandbox.Sandbox.RectHits | src/components/PowderSandbox.tsx:115-124 | True iff some cell of the rectangle is outside the grid or is sand, wall, bomb or gunpowder. |
| PowderSandbox.Sandbox.IgniteAt | src/components/PowderSandbox.tsx:126-135 | On an interior cell that is neither wall nor bomb, the cell becomes fire with lifetime max(old, ttl). Otherwise, and for every other cell, nothing changes. |
| PowderSandbox.Sandbox.Explode | src/components/PowderSandbox.tsx:142-158 | Every interior cell of the blast disc gets fuse 0 and becomes empty, or fire with lifetime 10..19 only in the outer ring. Every cell outside is unchanged. |
| PowderSandbox.Sandbox.ExplodeRow | src/components/PowderSandbox.tsx:142-158 | One row of the blast extends the exploded region by that row. |
| PowderSandbox.Sandbox.ExplodeCell | src/components/PowderSandbox.tsx:143-157 | One offset of the blast extends the exploded region by that cell. |
| PowderSandbox.Sandbox.PushBombs | src/components/PowderSandbox.tsx:224-236 | Each of the player's rows, in order, moves the bomb in front into an empty cell beyond, carrying its fuse. The kind multiset is kept. |
| PowderSandbox.Sandbox.MoveBomb | src/components/PowderSandbox.tsx:230-233 | The bomb and its fuse move to the empty cell, and the old cell becomes empty with fuse 0. |
| PowderSandbox.Sandbox.PushRow | src/components/PowderSandbox.tsx:225-235 | One row of the push extends the pushed region by that row and keeps the multiset. |
| PowderSandbox.Sandbox.IgniteCell | src/components/PowderSandbox.tsx:271-290 | Without fire next to it the cell is untouched. With fire next to it, an unarmed bomb gets fuse 18, oil ignites with lifetime 20, gunpowder empties and explodes with radius 4, and anything else is unchanged. |
| PowderSandbox.Sandbox.SetEmpty | src/components/PowderSandbox.tsx:288 | The cell becomes empty. Every other cell, and every lifetime and fuse, is kept. |
| PowderSandbox.Sandbox.IgnitionRow | src/components/PowderSandbox.tsx:270-291 | One row of the ignition pass changes nothing on a grid without fire. |
| PowderSandbox.Sandbox.IgnitionPass | src/components/PowderSandbox.tsx:269-292 | The ignition pass changes nothing on a grid without fire, and every fire keeps lifetime left. |
| PowderSandbox.Sandbox.SwapCells | src/components/PowderSandbox.tsx:308-310 | The grid becomes the swap of the two cells. Lifetimes and fuses are kept. |
| PowderSandbox.Sandbox.MoveGrain | src/components/PowderSandbox.tsx:305-327 | Sand or gunpowder ends where GrainTarget says, by one swap. |
| PowderSandbox.Sandbox.TrySpread | src/components/PowderSandbox.tsx:356-371 | `trySpread` returns true iff a spread target exists. The water then moves there. |
| PowderSandbox.Sandbox.MoveWater | src/components/PowderSandbox.tsx:328-378 | Water ends where WaterTarget says. The second side is tried only when the first side's spread fails. |
| PowderSandbox.Sandbox.MoveOil | src/components/PowderSandbox.tsx:379-401 | Oil ends where OilTarget says. |
| PowderSandbox.Sandbox.FireDecay | src/components/PowderSandbox.tsx:427-429 | The lifetime decreases by exactly one. The fire burns out, leaving empty, iff it reaches 0. |
| PowderSandbox.Sandbox.FireDrift | src/components/PowderSandbox.tsx:432-436 | Either nothing changes, or the cell above was empty and the fire moves up, keeping the larger of the two lifetimes. |
| PowderSandbox.Sandbox.Catch | src/components/PowderSandbox.tsx:443-450 | Oil reached by fire ignites with lifetime 18. Gunpowder reached by fire empties and explodes with radius 4. |
| PowderSandbox.Sandbox.FindFlammable | src/components/PowderSandbox.tsx:440-452 | Returns the position of the first oil or gunpowder neighbour in the search order, or 4 when there is none. |
| PowderSandbox.Sandbox.FireSpread | src/components/PowderSandbox.tsx:438-453 | When the roll lets fire spread, it catches exactly the first flammable neighbour in the chosen order. When nothing is caught, nothing changes. |
| PowderSandbox.Sandbox.FireCell | src/components/PowderSandbox.tsx:425-455 | Fire with lifetime 1 burns out, leaving an empty cell with lifetime 0. Every fire keeps lifetime left. |
| PowderSandbox.Sandbox.MoveCell | src/components/PowderSandbox.tsx:303-455 | Any cell but fire ends as MoveTarget says, with lifetimes and fuses unchanged. |
| PowderSandbox.Sandbox.MoveCellFrom | src/components/PowderSandbox.tsx:303-455 | On a pass that started fire-free, one visit applies the cell's movement rule (`Move` to `MoveTarget`) and keeps the grid a rearrangement of the pass's start. |
| PowderSandbox.Sandbox.MoveRow | src/components/PowderSandbox.tsx:296-456 | On a fire-free grid, the row ends as `RowFold` over RowOrder(Forward(y, frame)): each interior column's rule applied in turn, left to right exactly when y + frame is even. It only rearranges kinds and leaves lifetimes and fuses alone. |
| PowderSandbox.Sandbox.MoveRowFrom | src/components/PowderSandbox.tsx:295-457 | On a pass that started fire-free, one row ends as its `RowFold` and keeps the grid a rearrangement of the pass's start. |
| PowderSandbox.Sandbox.MovementPass | src/components/PowderSandbox.tsx:295-457 | On a fire-free grid, the pass ends as `PassFold` over `PassOrder()`: rows H-2 down to 1, each scanned in its row order. It only rearranges kinds, so kinds are conserved and walls and bombs stay put, and it leaves lifetimes and fuses alone. |
| PowderSandbox.Sandbox.FuseCell | src/components/PowderSandbox.tsx:462-475 | A cell that is not a bomb, or has fuse 0, is untouched. Otherwise the fuse drops by one. At 1 the bomb explodes with radius 7. Otherwise either the grid and lifetimes stay, or the fuse dropped below 6 and a spark lit an empty cell beside it with lifetime 8. |
| PowderSandbox.Sandbox.FuseRow | src/components/PowderSandbox.tsx:461-476 | One row of the fuse pass changes nothing when no bomb has a running fuse. |
| PowderSandbox.Sandbox.FusePass | src/components/PowderSandbox.tsx:460-477 | The fuse pass changes nothing when no bomb has a running fuse. |
| PowderSandbox.Sandbox.Step | src/components/PowderSandbox.tsx:257-477 | The frame count rises by one. With no press, no push, no fire and no armed bomb, the grid ends as the movement pass's `PassFold` for the new frame. The grid stays fire-free and disarmed, and lifetimes and fuses are unchanged. |
| TileTerrain.HashStrToSeed | src/components/MinecraftLite.tsx:30-37 | The seed is FNV-1a of the code units, read as an unsigned 32-bit number in [0, 2^32). |
| TileTerrain.FnvTestVectors | src/components/MinecraftLite.tsx:31-34 | The hash agrees with the published FNV-1a 32-bit values for "", "a" and "foobar". |
| TileTerrain.KeyInjective | src/components/MinecraftLite.tsx:39-41 | `key(x, y)` names each tile uniquely: equal keys iff equal coordinates. |
| TileTerrain.BuildHeightMap | src/components/MinecraftLite.tsx:197-205 | Every column height is the rounded noise clamped to [26, 66], and unchanged when already inside. |
| TileTerrain.TrunkHeight | src/components/MinecraftLite.tsx:220 | A trunk is 4, 5 or 6 tiles tall. |
| TileTerrain.PlantTrunk | src/components/MinecraftLite.tsx:221-224 | A new tree's trunk tiles become wood, and every tile off the new trunk keeps its entry or its absence. The decoration still matches the planted trees, with the new one added. |
| TileTerrain.GrowCrown | src/components/MinecraftLite.tsx:225-236 | Wood is unchanged. A tile holds leaves afterwards iff it held leaves before, or it lies inside the world and in the new tree's crown box, won its roll and is not wood. The decoration still matches the trees. |
| TileTerrain.CrownRow | src/components/MinecraftLite.tsx:227-236 | One row dy of the crown box extends the stamped part of the crown by offsets -2..2 of that row. |
| TileTerrain.CrownCell | src/components/MinecraftLite.tsx:228-235 | One offset: an in-world tile whose roll wins and that is not wood becomes leaves. Off-world offsets and lost rolls change nothing. |
| TileTerrain.CrownStep | src/components/MinecraftLite.tsx:228-235 | When only the tile at one crown offset changes, and it ends as leaves iff it already was or it is in the world, won its roll and is not wood, the stamped part of the crown grows by that offset. |
| TileTerrain.TrunkKeepsLeaves | src/components/MinecraftLite.tsx:221-224 | A new trunk takes no tile that an earlier crown covers with leaves: every in-world non-wood tile an earlier crown owes still holds leaves. |
| TileTerrain.CrownCompletesLeaves | src/components/MinecraftLite.tsx:225-236 | After the newest crown, every in-world non-wood tile that any planted crown covers with a winning roll holds leaves. |
| TileTerrain.SkipKeepsScan | src/components/MinecraftLite.tsx:213-217 | A column skipped as submerged, too close to the last tree, or unlucky keeps the scan invariant. |
| TileTerrain.PlantKeepsScan | src/components/MinecraftLite.tsx:213-219 | A planted column is new, and planting it keeps the scan invariant. |
| TileTerrain.ApartAfterPlant | src/components/MinecraftLite.tsx:215-218 | A tree planted at least 6 columns after the last one keeps every pair of trees at least 6 columns apart. |
| TileTerrain.Decorate | src/components/MinecraftLite.tsx:207-237 | Trees grow only in columns that sprout: inside the margin, surface above row sea level - 1, lucky roll. Any two trees are at least 6 apart. A sprouting column is a tree or is within 5 after one. Wood is exactly the trunks. A tile holds leaves iff it is inside the world, is not wood, and lies in some tree's crown box with a winning roll. |
| TileTerrain.ColumnIsLayered | src/components/MinecraftLite.tsx:242-257 | Down an undecorated column, base blocks go sky or sea, then grass, then dirt, then stone, never back up. |
| TileTerrain.GrassIsSurface | src/components/MinecraftLite.tsx:253 | An undecorated tile is grass iff it is on its column's surface row. |
| TileTerrain.DirtBand | src/components/MinecraftLite.tsx:254 | An undecorated tile is dirt iff it is 1 to 4 rows below the surface. |
| TileTerrain.SeaIsLevel | src/components/MinecraftLite.tsx:248-252 | Above the surface, a tile is water iff it is at or below the sea level row, and air iff it is above it. |
| TileTerrain.BaseBlockBoundsAndDecoration | src/components/MinecraftLite.tsx:243-246 | Out of the world every tile is stone. Inside, a decoration always wins. |
| TileTerrain.TrunksAreDry | src/components/MinecraftLite.tsx:213-223 | Every wood tile is a trunk above the surface of a dry column, and shows as wood. |
| TileWorld.WithBlock | src/components/MinecraftLite.tsx:265-274 | Out of bounds, edits stay. In bounds, the tile shows id afterwards. Every other tile, and its stored entry, is unchanged. Reconciliation is kept. |
| TileWorld.SetBackRestores | src/components/MinecraftLite.tsx:265-274 | Setting a tile back to the block it showed restores the previous overlay exactly. |
| TileWorld.SetBlockIdempotent | src/components/MinecraftLite.tsx:265-274 | Setting the same block twice equals setting it once. |
| TileWorld.ReconciledIsCanonical | src/components/MinecraftLite.tsx:268-273 | Two reconciled overlays that show the same blocks are the same map. |
| TileWorld.PlacedBlockIsSupported | src/components/MinecraftLite.tsx:360-378 | An allowed placement is inside the world, shows the placed block, and still touches a solid tile. |
| TileWorld.World.constructor | src/components/MinecraftLite.tsx:97 | A new world has no edits and is reconciled. |
| TileWorld.World.SetBlock | src/components/MinecraftLite.tsx:265-274 | The overlay becomes WithBlock of the old one, so the tile shows id when in bounds, every other tile keeps what it showed, and no stored edit equals its base block. |
| TileWorld.World.RectHitsSolid | src/components/MinecraftLite.tsx:276-287 | True iff some tile of the inclusive floor range [x0..x1] x [y0..y1] is solid, meaning neither air nor water. |
| TileWorld.World.PointerDown | src/components/MinecraftLite.tsx:348-384 | Only when running and in reach does a press act. Placing acts iff the tile is air, clear of the player and next to a solid tile. Mining acts iff the tile is not air, and sets it to air. Any rejected press leaves the overlay unchanged. A tile outside the world reads as stone, so mining it reports a save yet changes nothing (`MiningOutsideIsIdle`). |
| TileWorld.MiningOutsideIsIdle | src/components/MinecraftLite.tsx:244-266 | Beyond the world's edge mining is allowed, because the tile shows stone, but the overlay that results is the old one. |
| ContactForm.GenerateCaptcha | src/components/Contact.tsx:27-32 | Both numbers lie in 1..10 and the answer is their sum, so it lies in 2..20. |
| ContactForm.SomeKeyword | src/components/Contact.tsx:76 | `some` over the keywords is true iff the text contains one of them. |
| ContactForm.FirstFailureOfSix | src/components/Contact.tsx:40-81 | The first failure of a six-entry check table is the earliest rejecting check's message. |
| ContactForm.ValidateBotProtection | src/components/Contact.tsx:40-81 | Valid iff no check rejects. A valid result has an empty error. An invalid one carries the first failing check's message. |
| ContactForm.ValidIffEveryCheckPasses | src/components/Contact.tsx:40-81 | Valid exactly when each of the six checks, spelled out, passes. |
| ContactForm.EarlierCheckWins | src/components/Contact.tsx:40-81 | When check k rejects and no earlier one does, the result is check k's error, whatever the later checks say. |
| ContactForm.CorrectAnswerPassesCaptcha | src/components/Contact.tsx:55-58 | A generated captcha answered with its sum, even with a non-digit suffix, passes the captcha check. |
| ContactForm.HexSumPassesCaptcha | src/components/Contact.tsx:55-58 | White space, an optional '+', "0x" or "0X" and hexadecimal digits ended by a non-hex character pass whenever their value is the expected sum. |
| ContactForm.HexAnswerPassesCaptcha | src/components/Contact.tsx:55-58 | "0x14" passes a captcha whose answer is 20. |
| ContactForm.SignedAnswerAndCaptcha | src/components/Contact.tsx:55-58 | The expected sum after white space and an optional sign fails the captcha check iff the sign is '-'. |
| ContactForm.WrongAnswerFailsCaptcha | src/components/Contact.tsx:55-58 | Any other decimal number fails it: digits (leading zeros allowed) after white space and an optional sign, ended by a non-digit, whose signed value is not the sum. |
| ContactForm.WrongHexAnswerFailsCaptcha | src/components/Contact.tsx:55-58 | Likewise any hexadecimal number after "0x" or "0X" whose signed value is not the sum. |
| ContactForm.BlankAnswerFailsCaptcha | src/components/Contact.tsx:55-58 | A blank answer fails it, because parseInt gives NaN. |
| ContactForm.InitialCaptchaRejects | src/components/Contact.tsx:55-58 | With the initial captcha (answer 0), every submission is rejected. |
| ContactForm.SpamIsRejected | src/components/Contact.tsx:74-78 | A message that contains a spam keyword in any ASCII case is never valid. |
| ContactForm.UpperCaseUserPartNeverMatches | src/components/Contact.tsx:65-67 | An e-mail user part with an upper-case letter never equals a lower-cased name, so the name check cannot fire. |

## Left out

- Rendering: the pixel buffer, canvas drawing, the hotbar, the hint and the camera. These are output to a host surface.
- Browser plumbing: event listeners, animation-frame and timeout scheduling, resize observers, React state and effects. Where they pass the model a value, it is an input: the pointer, the brush, the tool, the clock and the button pressed.
- Player physics is not modelled in either game. This covers velocity, gravity, friction, step-up, buoyancy and the knockback of `explode`. In the sandbox the blocked horizontal move enters `Step` as an input: `PushOf` computes it from the player's position and velocity.
- Continuous noise: `noise1D`, `smoothstep` and the fractal sum are not modelled. `BuildHeightMap` takes the rounded heights as input and models only the clamp.
- `mulberry32` is not modelled. It is an input function from a seed to [0, 1).
- The reach test uses floating-point `Math.hypot`, so it is a boolean input to `PointerDown`. The `running` status is an input too.
- Persistence: reading and writing the overlay in `localStorage` is I/O. `PointerDown` returns whether the code would save.
- The overlay is keyed by tile pair instead of the string `key(x, y)`. `KeyInjective` shows the two keyings hold the same entries.
- The arithmetic of pixel coordinates (`rx / tileSize` and so on) is over exact reals, not IEEE doubles.
- JsRuntime.ParseInt: the result is the exact integer the digits spell, not the nearest double. The two agree below 2^53, which covers every captcha answer; above it the model keeps digits that JavaScript rounds away, and a NaN is None. `parseInt("-0")` gives 0, not -0; the captcha's `!==` test treats the two alike.
- JsRuntime.NatToString: models `${x}` only as plain decimal digits, which JavaScript prints for |x| < 10^21; from 10^21 on it uses exponent notation ("1e+21"). Tile coordinates and captcha answers stay far below that.
- `generateCaptcha`'s `Math.random` rolls are inputs. Its React state updates, `onSubmit` and its network request are not modelled.
- Strings are sequences of characters. `toLowerCase` is ASCII-only case folding, and `length` counts characters, not UTF-16 units.
- Sandbox randomness is a nondeterministic choice, not a probability. The model says what every outcome does, not how likely it is.
- PowderSandbox.Sandbox.FireCell: states only the burn-out case of lifetime 1 and that every fire keeps lifetime left. It does not state an exact end state for a fire that lives on. Its parts, `FireDecay`, `FireDrift` and `FireSpread`, state theirs.
- PowderSandbox.Sandbox.IgnitionPass: states the new state only for a grid without fire. For other grids it promises only that every fire keeps lifetime left. `IgniteCell` states the exact effect of each visit.
- PowderSandbox.Sandbox.MovementPass: states the exact grid (`PassFold`) only for a fire-free grid. With fire present it promises only that every fire keeps lifetime left, because fire visits roll dice and touch lifetimes and fuses.
- PowderSandbox.Sandbox.MoveCell: states the exact end state only for a visit to a cell that is not fire. For a fire cell it promises only that every fire keeps lifetime left. `FireCell` and its parts state the fire rules.
- PowderSandbox.Sandbox.MoveCellFrom: states the visit's grid only on a pass that started fire-free. Otherwise it promises only fire liveness.
- PowderSandbox.Sandbox.MoveRow: states the exact grid (`RowFold`) only for a fire-free grid. With fire present it promises only fire liveness.
- PowderSandbox.Sandbox.MoveRowFrom: states the row's grid only on a pass that started fire-free. Otherwise it promises only fire liveness.
- PowderSandbox.Sandbox.IgnitionRow: states only that a row changes nothing on a grid without fire, and fire liveness otherwise. `IgniteCell` states each visit.
- PowderSandbox.Sandbox.FuseRow: states only that a row changes nothing when no bomb has a running fuse, and fire liveness otherwise. `FuseCell` states each visit.
- PowderSandbox.Sandbox.FusePass: states the new state only when no bomb has a running fuse. `FuseCell` states each visit.
- PowderSandbox.Sandbox.Step: states the exact grid only for a quiet frame (no press, push, fire or armed bomb). For other frames it states only the frame count and fire liveness.
