/** Terrain generation: the land pass marks every cell whose score exceeds a
    threshold and lists it in `island`; the border pass lists in `border`
    every land cell with an orthogonal water neighbour inside the grid. */
module Terrain {
  import opened GridScan

  /** Cell values of the grid. */
  const Water := 0
  const Land := 1
  /** What `At` answers outside the grid; neither water nor land. */
  const OffGrid := -1

  /** A cell becomes land when its score is strictly greater than this. */
  const LandThreshold: real := 0.1

  /** Which cells the land pass marks, for a given score of each (x, y). */
  function LandKeep(score: (int, int) -> real): Coord -> bool {
    (c: Coord) => score(c.x, c.y) > LandThreshold
  }

  /** The value of cell `c`, or OffGrid when `c` is outside `g`. */
  function At(g: seq<seq<int>>, c: Coord): int {
    if 0 <= c.x < |g| && 0 <= c.y < |g[c.x]| then g[c.x][c.y] else OffGrid
  }

  predicate IsSquare(g: seq<seq<int>>, n: nat) {
    |g| == n && forall x :: 0 <= x < n ==> |g[x]| == n
  }

  /** The border pass's test for cell `c` of an n×n grid: land, and one of
      the four orthogonal neighbours is water, each one looked at only when
      its index stays inside the grid. */
  predicate IsCoast(g: seq<seq<int>>, n: int, c: Coord) {
    At(g, c) == Land &&
    ((c.x > 0 && At(g, Coord(c.x - 1, c.y)) == Water) ||
     (c.x < n - 1 && At(g, Coord(c.x + 1, c.y)) == Water) ||
     (c.y > 0 && At(g, Coord(c.x, c.y - 1)) == Water) ||
     (c.y < n - 1 && At(g, Coord(c.x, c.y + 1)) == Water))
  }

  function SolidKeep(g: seq<seq<int>>): Coord -> bool {
    (c: Coord) => At(g, c) == Land
  }

  function CoastKeep(g: seq<seq<int>>, n: int): Coord -> bool {
    (c: Coord) => IsCoast(g, n, c)
  }

  /** The four orthogonal neighbours (4-connectivity); diagonals are not among them. */
  function Neighbours4(c: Coord): set<Coord> {
    {Coord(c.x - 1, c.y), Coord(c.x + 1, c.y), Coord(c.x, c.y - 1), Coord(c.x, c.y + 1)}
  }

  predicate HasWaterNeighbour(g: seq<seq<int>>, n: int, c: Coord) {
    exists d :: d in Neighbours4(c) && InGrid(n, d) && At(g, d) == Water
  }

  /** The guarded test is exactly "land with an in-grid orthogonal neighbour
      that is water". */
  lemma CoastIffWaterNeighbour(g: seq<seq<int>>, n: nat, c: Coord)
    requires IsSquare(g, n)
    ensures IsCoast(g, n, c) <==> At(g, c) == Land && HasWaterNeighbour(g, n, c)
  {
    var west, east, north, south :=
      Coord(c.x - 1, c.y), Coord(c.x + 1, c.y), Coord(c.x, c.y - 1), Coord(c.x, c.y + 1);
    if At(g, c) == Land {
      assert InGrid(n, c);
      if c.x > 0 && At(g, west) == Water {
        assert west in Neighbours4(c) && InGrid(n, west);
      } else if c.x < n - 1 && At(g, east) == Water {
        assert east in Neighbours4(c) && InGrid(n, east);
      } else if c.y > 0 && At(g, north) == Water {
        assert north in Neighbours4(c) && InGrid(n, north);
      } else if c.y < n - 1 && At(g, south) == Water {
        assert south in Neighbours4(c) && InGrid(n, south);
      }
    }
  }

  /** A land cell whose in-grid orthogonal neighbours are all land is not
      coast: positions outside the grid (at an edge) and diagonal neighbours
      never make a cell coast. */
  lemma OrthogonalLandIsInterior(g: seq<seq<int>>, n: nat, c: Coord)
    requires IsSquare(g, n)
    requires forall d :: d in Neighbours4(c) && InGrid(n, d) ==> At(g, d) != Water
    ensures !IsCoast(g, n, c)
  {
    CoastIffWaterNeighbour(g, n, c);
  }

  /** A one-cell island on a 1×1 grid: every neighbour is off the grid. */
  lemma LoneCellIsNotCoast()
    ensures !IsCoast([[Land]], 1, Coord(0, 0))
  {
  }

  /** Water only at the diagonals of the centre does not make it coast. */
  lemma DiagonalWaterIsIgnored()
    ensures !IsCoast([[Water, Land, Water], [Land, Land, Land], [Water, Land, Water]], 3, Coord(1, 1))
    ensures IsCoast([[Water, Land, Water], [Land, Land, Land], [Water, Land, Water]], 3, Coord(0, 1))
  {
  }

  /** The grid, the `island` list filled by the land pass and the `border`
      list filled by the border pass. `grid[x, y]` is the cell at (x, y). */
  class GridModel {
    const size: nat
    const grid: array2<int>
    var island: seq<Coord>
    var border: seq<Coord>

    predicate Valid() {
      grid.Length0 == size && grid.Length1 == size
    }

    /** The grid's cells as a value, indexed `[x][y]`. */
    ghost function Contents(): (g: seq<seq<int>>)
      reads grid
      ensures |g| == grid.Length0
      ensures forall x :: 0 <= x < grid.Length0 ==> |g[x]| == grid.Length1
      ensures forall x, y :: 0 <= x < grid.Length0 && 0 <= y < grid.Length1 ==> g[x][y] == grid[x, y]
    {
      seq(grid.Length0, x requires 0 <= x < grid.Length0 reads grid =>
        seq(grid.Length1, y requires 0 <= y < grid.Length1 reads grid => grid[x, y]))
    }

    /** The state both passes leave behind: every cell water or land,
        `island` the land cells and `border` the coast cells, each in
        visiting order. */
    ghost predicate Consistent()
      reads this, grid
    {
      Valid()
      && (forall x, y :: 0 <= x < size && 0 <= y < size ==> grid[x, y] == Water || grid[x, y] == Land)
      && island == Scan(size, SolidKeep(Contents()))
      && border == Scan(size, CoastKeep(Contents(), size))
    }

    /** A size×size grid of water and two empty lists. */
    constructor (size: nat)
      ensures this.size == size && Valid() && fresh(grid)
      ensures forall x, y :: 0 <= x < size && 0 <= y < size ==> grid[x, y] == Water
      ensures island == [] && border == []
    {
      this.size := size;
      grid := new int[size, size]((x, y) => Water);
      island := [];
      border := [];
    }

    /** The land pass: each cell whose score exceeds the threshold is set to
        land and appended to `island`; other cells are left as they were. */
    method BuildLand(score: (int, int) -> real)
      requires Valid()
      modifies this`island, grid
      ensures forall x, y :: 0 <= x < size && 0 <= y < size ==>
        grid[x, y] == if score(x, y) > LandThreshold then Land else old(grid[x, y])
      ensures island == old(island) + Scan(size, LandKeep(score))
    {
      var x := 0;
      while x < grid.Length0
        invariant 0 <= x <= size
        invariant island == old(island) + Visited(size, x, 0, LandKeep(score))
        invariant forall i, j :: 0 <= i < x && 0 <= j < size ==>
          grid[i, j] == if score(i, j) > LandThreshold then Land else old(grid[i, j])
        invariant forall i, j :: x <= i < size && 0 <= j < size ==> grid[i, j] == old(grid[i, j])
      {
        MarkColumn(score, x, old(island));
        x := x + 1;
      }
    }

    /** The inner loop of the land pass, over column `x`. `island` holds
        `listed` followed by the cells marked in the columns before `x`. */
    method MarkColumn(score: (int, int) -> real, x: nat, ghost listed: seq<Coord>)
      requires Valid() && x < size
      requires island == listed + Visited(size, x, 0, LandKeep(score))
      modifies this`island, grid
      ensures island == listed + Visited(size, x + 1, 0, LandKeep(score))
      ensures forall i, j :: 0 <= i < size && 0 <= j < size ==>
        grid[i, j] == if i == x && score(i, j) > LandThreshold then Land else old(grid[i, j])
    {
      var y := 0;
      while y < grid.Length1
        invariant 0 <= y <= size
        invariant island == listed + Visited(size, x, y, LandKeep(score))
        invariant forall i, j :: 0 <= i < size && 0 <= j < size ==>
          grid[i, j] == if i == x && j < y && score(i, j) > LandThreshold then Land else old(grid[i, j])
      {
        if score(x, y) > LandThreshold {
          grid[x, y] := Land;
          island := island + [Coord(x, y)];
        }
        y := y + 1;
      }
    }

    /** The border pass: every coast cell is appended to `border`; the grid
        and `island` are only read. */
    method ComputeBorder()
      requires Valid()
      modifies this`border
      ensures border == old(border) + Scan(size, CoastKeep(Contents(), size))
      ensures island == old(island)
      ensures forall x, y :: 0 <= x < size && 0 <= y < size ==> grid[x, y] == old(grid[x, y])
    {
      var x := 0;
      while x < grid.Length0
        invariant 0 <= x <= size
        invariant border == old(border) + Visited(size, x, 0, CoastKeep(Contents(), size))
      {
        CheckColumn(x, old(border));
        x := x + 1;
      }
    }

    /** The inner loop of the border pass, over column `x`. `border` holds
        `listed` followed by the coast cells of the columns before `x`. */
    method CheckColumn(x: nat, ghost listed: seq<Coord>)
      requires Valid() && x < size
      requires border == listed + Visited(size, x, 0, CoastKeep(Contents(), size))
      modifies this`border
      ensures border == listed + Visited(size, x + 1, 0, CoastKeep(Contents(), size))
    {
      ghost var g := Contents();
      var y := 0;
      while y < grid.Length1
        invariant 0 <= y <= size
        invariant border == listed + Visited(size, x, y, CoastKeep(g, size))
      {
        CoastTest(x, y);
        if grid[x, y] == Land {
          if (x > 0 && grid[x - 1, y] == Water) ||
             (x < grid.Length0 - 1 && grid[x + 1, y] == Water) ||
             (y > 0 && grid[x, y - 1] == Water) ||
             (y < grid.Length1 - 1 && grid[x, y + 1] == Water) {
            border := border + [Coord(x, y)];
          }
        }
        y := y + 1;
      }
    }

    /** The border pass's inline test on the array is `IsCoast` on its contents. */
    lemma CoastTest(x: int, y: int)
      requires Valid() && 0 <= x < size && 0 <= y < size
      ensures IsCoast(Contents(), size, Coord(x, y)) <==>
        grid[x, y] == Land &&
        ((x > 0 && grid[x - 1, y] == Water) ||
         (x < size - 1 && grid[x + 1, y] == Water) ||
         (y > 0 && grid[x, y - 1] == Water) ||
         (y < size - 1 && grid[x, y + 1] == Water))
    {
    }
  }

  /** Allocation, land pass and border pass, in the order the program runs them. */
  method Generate(size: nat, score: (int, int) -> real) returns (m: GridModel)
    ensures fresh(m) && fresh(m.grid)
    ensures m.size == size && m.Consistent()
    ensures forall x, y :: 0 <= x < size && 0 <= y < size ==>
      (m.grid[x, y] == Land <==> score(x, y) > LandThreshold)
  {
    m := new GridModel(size);
    m.BuildLand(score);
    m.ComputeBorder();
    ghost var g := m.Contents();
    forall c | InGrid(size, c)
      ensures LandKeep(score)(c) == SolidKeep(g)(c)
    {
    }
    ScanCongruent(size, LandKeep(score), SolidKeep(g));
  }

  /** After generation a cell is land exactly when `island` lists it, and
      `island` lists grid cells in visiting order without repeats. */
  lemma IslandIsLand(m: GridModel)
    requires m.Consistent()
    ensures forall c :: c in m.island ==> InGrid(m.size, c)
    ensures forall x, y :: 0 <= x < m.size && 0 <= y < m.size ==>
      (m.grid[x, y] == Land <==> Coord(x, y) in m.island)
    ensures StrictlyIncreasing(m.island)
    ensures forall i, j :: 0 <= i < j < |m.island| ==> m.island[i] != m.island[j]
  {
    var g := m.Contents();
    forall c | c in m.island
      ensures InGrid(m.size, c)
    {
      ScanMembers(m.size, SolidKeep(g), c);
    }
    forall x, y | 0 <= x < m.size && 0 <= y < m.size
      ensures m.grid[x, y] == Land <==> Coord(x, y) in m.island
    {
      ScanMembers(m.size, SolidKeep(g), Coord(x, y));
    }
    ScanIncreasing(m.size, SolidKeep(g));
  }

  /** After generation `border` holds exactly the land cells with an
      in-grid orthogonal water neighbour. */
  lemma BorderIsCoastline(m: GridModel)
    requires m.Consistent()
    ensures forall c :: c in m.border <==>
      InGrid(m.size, c) && m.grid[c.x, c.y] == Land && HasWaterNeighbour(m.Contents(), m.size, c)
  {
    var g := m.Contents();
    forall c
      ensures c in m.border <==>
        InGrid(m.size, c) && m.grid[c.x, c.y] == Land && HasWaterNeighbour(g, m.size, c)
    {
      ScanMembers(m.size, CoastKeep(g, m.size), c);
      CoastIffWaterNeighbour(g, m.size, c);
    }
  }

  /** After generation `border` is in visiting order without repeats. */
  lemma BorderIsOrdered(m: GridModel)
    requires m.Consistent()
    ensures StrictlyIncreasing(m.border)
    ensures forall i, j :: 0 <= i < j < |m.border| ==> m.border[i] != m.border[j]
  {
    ScanIncreasing(m.size, CoastKeep(m.Contents(), m.size));
  }

  /** After generation `border` is `island` with the interior cells deleted. */
  lemma BorderWithinIsland(m: GridModel)
    requires m.Consistent()
    ensures SubsequenceOf(m.border, m.island)
    ensures forall c :: c in m.border ==> c in m.island
  {
    var g := m.Contents();
    ScanSubsequence(m.size, CoastKeep(g, m.size), SolidKeep(g));
    forall c | c in m.border
      ensures c in m.island
    {
      ScanMembers(m.size, CoastKeep(g, m.size), c);
      ScanMembers(m.size, SolidKeep(g), c);
    }
  }
}
