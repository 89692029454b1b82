/** The colour given to each cell when the generated grid is drawn. */
module Tiles {
  import opened GridScan
  import opened Terrain

  datatype Tile = Sea | Sand | Road | Grass

  /** Interior land on every third column or row is drawn as road. */
  const RoadSpacing := 3

  predicate OnRoadLattice(x: int, y: int) {
    x % RoadSpacing == 0 || y % RoadSpacing == 0
  }

  /** The decision for one cell from its grid value, whether `border`
      lists it, and its coordinates. */
  function Classify(cell: int, onBorder: bool, x: int, y: int): (t: Tile)
    ensures t == Sea <==> cell != Land
    ensures t == Sand <==> cell == Land && onBorder
    ensures t == Road <==> cell == Land && !onBorder && OnRoadLattice(x, y)
    ensures t == Grass <==> cell == Land && !onBorder && !OnRoadLattice(x, y)
  {
    if cell == Land then
      if onBorder then Sand
      else if OnRoadLattice(x, y) then Road
      else Grass
    else
      Sea
  }

  /** The tile of cell (x, y) of a generated model. Sand is exactly the land
      with an in-grid orthogonal water neighbour, so neither water nor the
      coastline is ever drawn as road. */
  function TileAt(m: GridModel, x: int, y: int): (t: Tile)
    reads m, m.grid
    requires m.Consistent() && 0 <= x < m.size && 0 <= y < m.size
    ensures t == Sea <==> m.grid[x, y] == Water
    ensures t == Sand <==> m.grid[x, y] == Land && HasWaterNeighbour(m.Contents(), m.size, Coord(x, y))
    ensures t == Road <==>
      m.grid[x, y] == Land && !HasWaterNeighbour(m.Contents(), m.size, Coord(x, y)) && OnRoadLattice(x, y)
    ensures t == Grass <==>
      m.grid[x, y] == Land && !HasWaterNeighbour(m.Contents(), m.size, Coord(x, y)) && !OnRoadLattice(x, y)
  {
    BorderIsCoastline(m);
    Classify(m.grid[x, y], Coord(x, y) in m.border, x, y)
  }
}
