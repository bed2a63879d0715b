/** BaseGrid and its two concrete kinds: the grid's dimensions and the
    operations dispatched on its topology (SquareGrid or FHexGrid). */
module Grids {
  import opened Coordinates
  import Square
  import Hex
  import Rectangles

  /** Which subclass of BaseGrid a grid is. */
  datatype Topology = SquareTopology | FlatHexTopology

  /** cls._neighbors(x, y) */
  function Neighbours(topology: Topology, c: Cell): seq<Cell> {
    match topology
    case SquareTopology => Square.Neighbours(c)
    case FlatHexTopology => Hex.Neighbours(c)
  }

  /** The neighbour method of a topology as a function value, the form
      in which zone calls it. */
  function NeighbourMap(topology: Topology): Cell -> seq<Cell> {
    c => Neighbours(topology, c)
  }

  /** The distance the neighbour relation of each topology is measured
      by: Chebyshev on squares, distance_off on hexagons. */
  function Distance(topology: Topology, a: Cell, b: Cell): nat {
    match topology
    case SquareTopology => Chebyshev(a, b)
    case FlatHexTopology => Hex.DistanceOff(a, b)
  }

  /** The neighbours are the cells at distance 1, pairwise distinct, 8 of
      them on a square grid and 6 on a hexagonal one. */
  lemma NeighboursAtDistanceOne(topology: Topology, c: Cell)
    ensures |Neighbours(topology, c)| == (if topology.SquareTopology? then 8 else 6)
    ensures Distinct(Neighbours(topology, c)) && c !in Neighbours(topology, c)
    ensures forall n :: n in Neighbours(topology, c) <==> Distance(topology, c, n) == 1
  {
    match topology
    case SquareTopology => Square.NeighboursAreKingMoves(c);
    case FlatHexTopology => Hex.NeighboursAreAdjacent(c); Hex.DistanceOffMetric(c, c, c);
  }

  /** Both distances are metrics. */
  lemma DistanceMetric(topology: Topology, a: Cell, b: Cell, c: Cell)
    ensures Distance(topology, a, b) == Distance(topology, b, a)
    ensures Distance(topology, a, b) == 0 <==> a == b
    ensures Distance(topology, a, c) <= Distance(topology, a, b) + Distance(topology, b, c)
  {
    match topology
    case SquareTopology => ChebyshevMetric(a, b, c);
    case FlatHexTopology => Hex.DistanceOffMetric(a, b, c);
  }

  /** A cell at distance k > 0 from o neighbours a cell at distance k - 1. */
  lemma StepToward(topology: Topology, o: Cell, c: Cell) returns (p: Cell)
    requires Distance(topology, o, c) > 0
    ensures Distance(topology, o, p) == Distance(topology, o, c) - 1
    ensures c in Neighbours(topology, p)
  {
    match topology
    case SquareTopology => p := Square.StepToward(o, c);
    case FlatHexTopology => p := Hex.StepToward(o, c);
  }

  /** The cells (x, y) with 0 <= x < width and 0 <= y < height. */
  predicate InBounds(width: int, height: int, c: Cell) {
    0 <= c.0 < width && 0 <= c.1 < height
  }

  /** The cells of s that lie in the grid, in their order. */
  function KeepInBounds(width: int, height: int, s: seq<Cell>): (r: seq<Cell>)
    ensures |r| <= |s|
    ensures forall c :: c in r <==> c in s && InBounds(width, height, c)
  {
    if s == [] then []
    else
      var rest := KeepInBounds(width, height, s[1..]);
      assert forall c :: c in s <==> c == s[0] || c in s[1..];
      if InBounds(width, height, s[0]) then [s[0]] + rest else rest
  }

  /** BaseGrid.neighbors: the neighbours that lie in the grid. */
  function BoundedNeighbours(topology: Topology, width: int, height: int, c: Cell): seq<Cell> {
    KeepInBounds(width, height, Neighbours(topology, c))
  }

  /** A grid of one topology whose width and height can be changed. */
  class Grid {
    const topology: Topology
    var width: int
    var height: int

    ghost predicate Valid()
      reads this
    {
      width > 0 && height > 0
    }

    constructor (topology: Topology, width: int, height: int)
      requires width > 0 && height > 0
      ensures this.topology == topology && this.width == width && this.height == height
      ensures Valid()
    {
      this.topology := topology;
      this.width := width;
      this.height := height;
    }

    /** The width setter: a width that is not > 0 is refused and the grid
        keeps its width. */
    method SetWidth(width: int) returns (outcome: Outcome)
      modifies this`width
      ensures width > 0 ==> outcome == Pass && this.width == width
      ensures width <= 0 ==> outcome == Fail(InvalidDimension) && this.width == old(this.width)
      ensures old(Valid()) ==> Valid()
    {
      if width <= 0 {
        return Fail(InvalidDimension);
      }
      this.width := width;
      return Pass;
    }

    /** The height setter, likewise. */
    method SetHeight(height: int) returns (outcome: Outcome)
      modifies this`height
      ensures height > 0 ==> outcome == Pass && this.height == height
      ensures height <= 0 ==> outcome == Fail(InvalidDimension) && this.height == old(this.height)
      ensures old(Valid()) ==> Valid()
    {
      if height <= 0 {
        return Fail(InvalidDimension);
      }
      this.height := height;
      return Pass;
    }

    /** __contains__ */
    predicate Contains(c: Cell)
      reads this
    {
      InBounds(width, height, c)
    }

    /** __len__ */
    function Size(): int
      reads this
    {
      height * width
    }

    /** __iter__: column after column, top to bottom. */
    function Cells(): seq<Cell>
      reads this
    {
      Rectangles.Box(0, width - 1, 0, height - 1)
    }

    /** neighbors(x, y), filtered by this grid's dimensions. */
    function Neighbors(c: Cell): (r: seq<Cell>)
      reads this
      ensures forall n :: n in r <==> n in Neighbours(topology, c) && Contains(n)
    {
      BoundedNeighbours(topology, width, height, c)
    }

    /** Iteration yields every cell the grid contains, each exactly once,
        and len() of them. */
    lemma CellsEnumerateGrid()
      requires Valid()
      ensures |Cells()| == Size()
      ensures Distinct(Cells())
      ensures forall c :: c in Cells() <==> Contains(c)
    {
      Rectangles.BoxCells(0, width - 1, 0, height - 1);
    }
  }

  /** BaseGrid.__init__: both dimensions go through their setters, the
      width first. */
  method NewGrid(topology: Topology, width: int, height: int) returns (r: Result<Grid>)
    ensures r.Failure? <==> !(width > 0 && height > 0)
    ensures r.Failure? ==> r.error == InvalidDimension
    ensures r.Success? ==>
      fresh(r.value) && r.value.Valid() && r.value.topology == topology &&
      r.value.width == width && r.value.height == height
  {
    if width <= 0 || height <= 0 {
      return Failure(InvalidDimension);
    }
    var g := new Grid(topology, width, height);
    return Success(g);
  }
}
