# Random city island generator: terrain core

A Dafny model of the terrain part of `main.js` in the random city island
generator. The program fills a square grid in three steps:

1. **Land pass.** It allocates a `size`×`size` grid of water (0). It visits
   every cell, x first and then y. A cell whose score (noise plus a radial
   falloff) is strictly greater than `0.1` becomes land (1) and is appended
   to `island`.
2. **Border pass.** It visits the cells in the same order. A land cell goes
   into `border` when one of its four orthogonal neighbours is inside the
   grid and is water.
3. **Tile decision.** Each cell gets a colour: water is sea. Land listed in
   `border` is sand. Other land on every third column or row is road. The
   rest is grass.

Modules:

- `GridScan` (`grid_scan.dfy`) covers coordinates and the x-major/y visiting
  order. `Scan(n, keep)` is the list a nested loop builds when it appends the
  cells that pass `keep`. Lemmas give its membership, its strict order and
  its congruence. They also show that keeping fewer cells gives a
  subsequence.
- `Terrain` (`terrain.dfy`) holds the `GridModel` class. Its fields are a
  `const grid: array2<int>`, indexed `grid[x, y]`, and the `island` and
  `border` lists. `BuildLand` and `ComputeBorder` are the two passes. Each
  runs the outer `while` loop over x, and `MarkColumn` and `CheckColumn` run
  the inner loop over y. `Generate` runs allocation and both passes.
  `Consistent()` is the state they leave behind.
- `Tiles` (`tiles.dfy`) holds the tile classification and `TileAt`.

The score is a parameter `score: (int, int) -> real`. It stands for the
value the program computes at (x, y) from `perlin.get`, `Math.sqrt` and
`Math.pow`. Nothing else is taken from outside.

## Model

| member | source | states |
|---|---|---|
| `GridScan.VisitedMembers` | main.js:14-15 | after the loops have visited every cell before (x, y), the list holds exactly the kept cells among them |
| `GridScan.ScanMembers` | main.js:14-23 | a full pass lists a cell exactly when it is inside the grid and kept |
| `GridScan.VisitedIncreasing` | main.js:14-15 | a partial pass lists cells strictly in x-major, then y, order |
| `GridScan.ScanIncreasing` | main.js:27-34 | a full pass lists cells in x-major, then y, order with no cell twice |
| `GridScan.VisitedSubsequence` | main.js:27-34 | with the same visiting order, keeping fewer cells gives a subsequence of the list that keeps more |
| `GridScan.ScanSubsequence` | main.js:27-34 | the full-grid form of the subsequence property |
| `GridScan.VisitedCongruent` | main.js:14-15 | a pass looks only at cells of the grid, so two tests that agree there build the same list |
| `GridScan.ScanCongruent` | main.js:14-15 | the full-grid form of the congruence property |
| `Terrain.CoastIffWaterNeighbour` | main.js:29-33 | the guarded four-way test holds exactly for land with an in-grid orthogonal neighbour that is water |
| `Terrain.OrthogonalLandIsInterior` | main.js:30-33 | a cell whose in-grid orthogonal neighbours are all non-water is not coast, whatever lies off the grid or on the diagonals |
| `Terrain.LoneCellIsNotCoast` | main.js:30-33 | a one-cell land grid has no coast, because off-grid positions never count as water |
| `Terrain.DiagonalWaterIsIgnored` | main.js:30-33 | a 3×3 example: water only on the diagonals does not make the centre coast, while an edge cell next to water is coast |
| `Terrain.GridModel.constructor` | main.js:7-9 | the grid is `size`×`size` and all water; `island` and `border` are empty |
| `Terrain.GridModel.BuildLand` | main.js:14-25 | each cell with score strictly above 0.1 becomes land and every other cell keeps its value; `island` gains the marked cells in visiting order |
| `Terrain.GridModel.MarkColumn` | main.js:15-24 | one column of the land pass: cells of column x with score above 0.1 become land, no other cell changes, and `island` gains them in y order |
| `Terrain.GridModel.CheckColumn` | main.js:28-37 | one column of the border pass: `border` gains the coast cells of column x in y order |
| `Terrain.GridModel.CoastTest` | main.js:29-33 | the four guarded comparisons on the array are the coast test on the grid's contents |
| `Terrain.GridModel.ComputeBorder` | main.js:27-38 | `border` gains exactly the coast cells in visiting order; the grid and `island` are unchanged |
| `Terrain.Generate` | main.js:7-38 | the result is `Consistent`: every cell is water or land, `island` lists the land and `border` the coast; a cell is land exactly when its score is strictly above 0.1, so a score equal to 0.1 stays water |
| `Terrain.IslandIsLand` | main.js:14-23 | after generation a cell is land exactly when `island` lists it; `island` is in visiting order with no repeats |
| `Terrain.BorderIsCoastline` | main.js:27-34 | after generation `border` lists exactly the land cells with an in-grid orthogonal water neighbour |
| `Terrain.BorderIsOrdered` | main.js:27-34 | after generation `border` is in x-major, then y, order with no repeats |
| `Terrain.BorderWithinIsland` | main.js:27-34 | after generation `border` is a subsequence of `island`, so every border cell is land |
| `Tiles.Classify` | main.js:57-70 | each cell gets exactly one tile: sea if not land; sand if land in `border`; road if other land on a column or row divisible by 3; otherwise grass |
| `Tiles.TileAt` | main.js:57-70 | in a generated model, sand is exactly land with an in-grid orthogonal water neighbour; road and grass are the other land, split by the mod-3 lattice; sea is water; so water and coast are never road |

## Left out

- The score arithmetic is left out (main.js:11-12, 16-18). It uses `perlin.get`, a global the file never declares or imports, together with `Math.sqrt`, `Math.pow` and the float centre. The model takes the resulting score as the parameter `score`.
- `Terrain.GridModel.BuildLand`: the score and the threshold 0.1 are exact reals, while the program compares IEEE doubles. The strict `>` is kept. Rounding of the double 0.1 and NaN scores are not modelled.
- The fixed `size = 100` (main.js:3) is generalised to any natural number. With `size = 0` the program's loops never run, and the model agrees.
- The canvas and DOM work is I/O and is not modelled (main.js:1, 40-53, 59-72): the CSS import, `getElementById`, `getContext`, the window size, the cell pixel sizes, `fillStyle` and `fillRect`. `Tiles.Classify` returns the tile that the colour stands for.
- The linear `border.some(...)` search (main.js:58) is modelled as sequence membership. The program also compares plain `x`/`y` objects, and membership is the same test.
- JavaScript `%` truncates toward zero and Dafny's `%` is Euclidean. The two agree here because tile coordinates are never negative.
- The wider design of this generator describes more than `main.js` does: 8-connectivity coast detection, an `island` without its coastal cells, road carving with pruning, and commercial centres. Where it and the code disagree, the model follows `main.js`. The coast uses 4-connectivity, `island` keeps every land cell, and roads are only a mod-3 colour rule. Road carving and centre placement are not in this file and are not part of this model.
