# pypog grid geometry and pencils, in Dafny

This project models the core of pypog, a small Python library for board-game grids.

`pypog/gridlib.py` holds the grids. `BaseGrid` keeps a width and a height, validated on every set. From them follow `in`, `len` and iteration over the cells. It also builds zones, rectangles, hollow rectangles and 3D lines.

There are two concrete grids:
- `SquareGrid`: eight neighbours, a Bresenham line and quarter-turn rotation.
- `FHexGrid`: flat-topped hexagons, six neighbours chosen by column parity, and rotation by sixths of a turn. It converts between offset and cube coordinates through `_HexGrid`.

`pypog/pencil.py` holds the pencils. A pencil is started on a cell and then moved over the grid. It keeps a selection and the cells the last move added and removed. There are three kinds:
- a line pencil, which paints a thick line from the origin;
- a freehand pencil, which only grows;
- a paint pot, which floods the cells similar to its origin.

Layout, one module per file:

- `coordinates.dfy`: cells, the error and result types, and Chebyshev distance.
- `square.dfy`: `SquareGrid`.
  - The line is a method whose loop carries the error term.
  - It is proved equal to a closed-form sweep. The sweep's shape is proved separately.
- `hex.dfy`: `_HexGrid` and `FHexGrid`, with cube coordinates and the hex distance. Rotation is a method with a nested loop.
- `rectangles.dfy`: `rectangle`, `_bounding_rect` and `hollow_rectangle`.
- `grids.dfy`: dispatch on the grid kind and the `Grid` class with its setters.
- `zones.dfy`: `zone` as a method over a set buffer.
  - It is tied to a recursive definition of the zone.
  - The zone is proved to be the distance ball and the set of cells reachable in `radius` steps.
- `pencils.dfy`: the paint pot's flood loop, proved against reachability, and the `Pencil` class with its start and update protocol.

Python exceptions become `Result`/`Outcome` values carrying an `Error`: `InvalidDimension`, `InvalidRadius`, `EmptyInput` (a bounding rectangle of no cells), `AlreadyStarted` or `NotStarted`. A refused call leaves the state unchanged, as the raising code does, with one exception: `PaintPotPencil.start` stores its comparison method before `BasePencil.start` refuses (pencil.py:190-191), and `Pencils.Pencil.StartFill` keeps it stored.

The pencils pass their `size` itself as the zone radius (pencil.py:137, 151), so a size-1 line pencil paints a line three cells thick.

Where the code and its documentation disagree:
- `_bounding_rect` returns its bounds in the order `(xmin, xmax, ymin, ymax)`, contrary to its own doc comment. The model carries both orders. `Rectangles.BoundingRectAsWritten` and `Rectangles.HollowRectangleAsWritten` follow the code. The main members, `Rectangles.BoundingRect` and `Rectangles.HollowRectangle`, follow the doc comment (see Findings).

## Model

| member | source | states |
|---|---|---|
| Coordinates.Reversed | pypog/gridlib.py:247-248 | `list.reverse()`: same length, element i is the old element n-1-i |
| Coordinates.ReversedTwice | pypog/gridlib.py:247-248 | reversing twice gives the list back |
| Coordinates.ReversedElements | pypog/gridlib.py:247-248 | reversing keeps the same members |
| Coordinates.ChebyshevMetric | pypog/gridlib.py:206-211 | the king-move distance of the square grid is symmetric, zero only between equal cells, and obeys the triangle inequality |
| Grids.Grid.constructor | pypog/gridlib.py:12-17 | a grid built with positive dimensions holds them and is valid |
| Grids.NewGrid | pypog/gridlib.py:12-17 | `__init__` fails with InvalidDimension exactly when the width or the height is not positive; otherwise a fresh grid with those dimensions |
| Grids.Grid.SetWidth | pypog/gridlib.py:41-47 | a width of at most 0 is refused and the width is kept; any other width is stored |
| Grids.Grid.SetHeight | pypog/gridlib.py:54-60 | a height of at most 0 is refused and the height is kept; any other height is stored |
| Grids.Grid.Contains | pypog/gridlib.py:67-75 | `__contains__`: characterised by Grids.Grid.CellsEnumerateGrid, which proves it holds exactly for the cells iteration yields |
| Grids.Grid.Size | pypog/gridlib.py:63-65 | `__len__`: characterised by Grids.Grid.CellsEnumerateGrid, which proves it is the number of cells iteration yields |
| Grids.Grid.Cells | pypog/gridlib.py:77-81 | `__iter__`, x outer and y inner: characterised by Grids.Grid.CellsEnumerateGrid (every contained cell exactly once, `len()` of them) |
| Grids.Grid.CellsEnumerateGrid | pypog/gridlib.py:63-81 | iteration yields `len()` = width·height cells, no cell twice, and exactly the cells `in` the grid |
| Grids.KeepInBounds | pypog/gridlib.py:99-102 | the filter keeps exactly the cells inside the grid, never more than it was given |
| Grids.BoundedNeighbours | pypog/gridlib.py:99-102 | the filtered neighbours of `neighbors(x, y)`: characterised by Grids.KeepInBounds and Grids.Grid.Neighbors (exactly the topology's neighbours inside the grid) |
| Grids.Grid.Neighbors | pypog/gridlib.py:99-102 | `neighbors(x, y)` holds exactly the topology's neighbours that are in the grid |
| Grids.Neighbours | pypog/gridlib.py:104-106 | `cls._neighbors` dispatched on the grid kind: characterised by Grids.NeighboursAtDistanceOne |
| Grids.Distance | pypog/gridlib.py:390-396 | the distance each grid kind's neighbours are measured by, Chebyshev on squares and `distance_off` on hexagons: characterised by Grids.DistanceMetric and Grids.NeighboursAtDistanceOne |
| Square.Neighbours | pypog/gridlib.py:206-211 | `SquareGrid._neighbors`: characterised by Square.NeighboursAreKingMoves (eight distinct cells, exactly those at Chebyshev distance 1) |
| Hex.Neighbours | pypog/gridlib.py:419-424 | `FHexGrid._neighbors`, chosen by column parity: characterised by Hex.NeighboursAreAdjacent (six distinct cells, exactly those at `distance_off` 1) |
| Grids.NeighboursAtDistanceOne | pypog/gridlib.py:99-106 | both topologies: 8 or 6 distinct neighbours, none the cell itself, exactly the cells at distance 1 |
| Grids.DistanceMetric | pypog/gridlib.py:390-396 | the distance of each topology is a metric |
| Grids.StepToward | pypog/gridlib.py:99-106 | in both topologies (square neighbours at gridlib.py:206-211, hex neighbours at 419-424) a cell at positive distance neighbours a cell one step closer |
| Square.NeighboursAreKingMoves | pypog/gridlib.py:206-211 | eight distinct neighbours, exactly the cells at Chebyshev distance 1 |
| Square.StepToward | pypog/gridlib.py:206-211 | a cell at Chebyshev distance k > 0 is a neighbour of a cell at distance k-1 |
| Square.Line | pypog/gridlib.py:213-249 | the method (swap the axes of a steep line, order by x, rasterise, reverse if swapped) computes the closed-form line `SquareLine` |
| Square.SquareLine | pypog/gridlib.py:213-249 | the line as a closed form: characterised by Square.LineShape, Square.LineInBox and Square.LineReversal, and computed by the method Square.Line |
| Square.Raster | pypog/gridlib.py:232-245 | the stepping loop with the scaled error term produces the sweep whose k-th cell rises by round(k·\|DY\|/DX) |
| Square.RiseWindow | pypog/gridlib.py:232-245 | the rise at step k is the nearest integer to k·d/dx, ties rounding down, as `offset > 0.5` decides |
| Square.RiseNext | pypog/gridlib.py:242-245 | one step raises the rise by one exactly when the accumulated error passes one half |
| Square.RiseRange | pypog/gridlib.py:237-245 | the rise starts at 0, ends at \|DY\|, and stays between them |
| Square.RiseMonotone | pypog/gridlib.py:237-245 | the minor coordinate never turns back |
| Square.SweepEnds | pypog/gridlib.py:237-245 | the sweep starts at the first end point and ends at the second |
| Square.SweepSteps | pypog/gridlib.py:237-245 | consecutive cells of the sweep are king moves apart |
| Square.SweepInBox | pypog/gridlib.py:237-245 | the sweep stays in the box of its end points |
| Square.LineIsSweep | pypog/gridlib.py:220-230 | after the symmetries the line is a sweep over Chebyshev(p, q) steps, or its reverse, with the end points in place |
| Square.LineShape | pypog/gridlib.py:213-249 | line(p, q) has max(\|dx\|, \|dy\|) + 1 cells (so `[p]` when p = q), starts at p, ends at q, and advances by king moves |
| Square.LineEnds | pypog/gridlib.py:213-249 | the line starts at its first end point and ends at its second |
| Square.LineSteps | pypog/gridlib.py:213-249 | consecutive cells of the line are king moves apart, so it has no gap |
| Square.LineInBox | pypog/gridlib.py:213-249 | every cell of the line lies in the box of its end points |
| Square.LineReversal | pypog/gridlib.py:213-249 | line(q, p) is line(p, q) reversed |
| Square.Line3dLevel | pypog/gridlib.py:112-120 | with equal altitudes, line3d is the flat line with z1 attached to every cell |
| Square.Line3dAt | pypog/gridlib.py:121-123 | unfolding lemma for the sloped branch: element i takes its (x, y) from the flat line at the index the vertical line gives, and its z from that line; that index always lies in 0..\|flat\|-1, so `hoLine[d]` never reads past the end or wraps round from a negative index |
| Square.Line3dSloped | pypog/gridlib.py:112-123 | a sloped 3D line has max(\|flat\|-1, \|z2-z1\|)+1 cells, runs from (x1, y1, z1) to (x2, y2, z2), every (x, y) is on the flat line, and z changes by at most 1 per step |
| Square.Line3d | pypog/gridlib.py:112-123 | `line3d` on the square grid: characterised by Square.Line3dLevel, Square.Line3dAt and Square.Line3dSloped |
| Square.Rotate | pypog/gridlib.py:332-345 | the method with its nested quarter-turn loop computes `Rotated` |
| Square.Rotated | pypog/gridlib.py:332-345 | `SquareGrid.rotate` as a function: characterised by Square.RotatedKeepsDistances, Square.RotatedIdentity and Square.RotatedUndo, and computed by the method Square.Rotate |
| Square.RotatedCell | pypog/gridlib.py:339-344 | one cell turned about the centre: characterised by Square.RotatedCellUndo and Square.RotatedCellFixesOnlyCenter |
| Square.QuarterTurnsCompose | pypog/gridlib.py:341-342 | a turns then b turns is a + b turns |
| Square.QuarterTurnsPeriodic | pypog/gridlib.py:335-342 | quarter turns have period 4 |
| Square.QuarterTurnsKeepNorm | pypog/gridlib.py:340-343 | turning keeps the Chebyshev distance to the centre |
| Square.RotatedKeepsDistances | pypog/gridlib.py:332-345 | rotate keeps the length and every cell's Chebyshev distance to the centre |
| Square.RotatedIdentity | pypog/gridlib.py:335-336 | a multiple of 4 turns, a negative count or `[center]` leaves the list unchanged |
| Square.RotatedCellUndo | pypog/gridlib.py:339-344 | turning k then m times with k + m a multiple of 4 restores the cell |
| Square.RotatedCellFixesOnlyCenter | pypog/gridlib.py:339-344 | only the centre is turned onto the centre |
| Square.RotatedUndo | pypog/gridlib.py:332-345 | rotating by k then by m, with k + m a multiple of 4, restores the list |
| Hex.OffToCube | pypog/gridlib.py:360-366 | `cv_off_cube` lands on the plane xu + yu + zu = 0 with zu the column |
| Hex.CubeToOff | pypog/gridlib.py:353-358 | `cv_cube_off` inverts `cv_off_cube` on the plane: converting its result back gives the cube coordinates it was given |
| Hex.OffCubeRoundTrip | pypog/gridlib.py:353-366 | cv_cube_off(cv_off_cube(x, y)) = (x, y) |
| Hex.OffToCubeInjective | pypog/gridlib.py:360-366 | distinct cells have distinct cube coordinates |
| Hex.CubeDistance | pypog/gridlib.py:384-387 | `hex_distance_cube`: characterised by Hex.CubeDistanceTriangle and Hex.PlaneNorm |
| Hex.DistanceOff | pypog/gridlib.py:390-396 | `distance_off`: characterised by Hex.DistanceOffMetric and Hex.NeighboursAreAdjacent |
| Hex.CubeDistanceTriangle | pypog/gridlib.py:384-387 | `hex_distance_cube` obeys the triangle inequality |
| Hex.DistanceOffMetric | pypog/gridlib.py:390-396 | `distance_off` is symmetric, zero only between equal cells, and obeys the triangle inequality |
| Hex.PlaneNorm | pypog/gridlib.py:384-387 | on the plane the hex distance is half the sum of the absolute cube coordinates |
| Hex.NeighboursAreAdjacent | pypog/gridlib.py:419-424 | six distinct neighbours, chosen by column parity, exactly the cells at `distance_off` 1 |
| Hex.NeighbourOfDistanceOne | pypog/gridlib.py:419-424 | a cell at distance 1 is among the six neighbours |
| Hex.UnitToward | pypog/gridlib.py:384-387 | every non-zero cube vector on the plane has a unit step that shortens it by one |
| Hex.StepToward | pypog/gridlib.py:419-424 | a cell at hex distance k > 0 neighbours a cell at distance k-1 |
| Hex.Rotate | pypog/gridlib.py:619-636 | the method with its nested sixth-turn loop computes `Rotated` |
| Hex.Rotated | pypog/gridlib.py:619-636 | `FHexGrid.rotate` as a function: characterised by Hex.RotatedKeepsDistances, Hex.RotatedIdentity and Hex.RotatedUndo, and computed by the method Hex.Rotate |
| Hex.RotatedCell | pypog/gridlib.py:628-635 | one cell turned in cube space about the centre: characterised by Hex.RotatedCellCube, Hex.RotatedCellKeepsDistance, Hex.RotatedCellUndo and Hex.RotatedCellFixesOnlyCenter, and computed by the method Hex.TurnCell |
| Hex.TurnCell | pypog/gridlib.py:628-635 | the inner loop turns one cell about the centre in cube space |
| Hex.RotatedAt | pypog/gridlib.py:622-636 | unfolding lemma: outside the short cuts, `Rotated` has the input's length and holds each cell turned |
| Hex.SixthTurnsCompose | pypog/gridlib.py:631-632 | a sixth turns then b is a + b |
| Hex.SixTurnsAreWhole | pypog/gridlib.py:631-632 | six sixth turns are the identity |
| Hex.SixthTurnsPeriodic | pypog/gridlib.py:622-632 | sixth turns have period 6 |
| Hex.SixthTurnsKeepNorm | pypog/gridlib.py:630-633 | turning keeps a cube vector on the plane and keeps its length |
| Hex.RotatedCellCube | pypog/gridlib.py:628-635 | the rotated cell's cube coordinates are the centre plus the turned difference |
| Hex.RotatedCellKeepsDistance | pypog/gridlib.py:628-635 | a turned cell keeps its `distance_off` to the centre |
| Hex.RotatedKeepsDistances | pypog/gridlib.py:619-636 | rotate keeps the length and every cell's `distance_off` to the centre |
| Hex.RotatedIdentity | pypog/gridlib.py:622-623 | a multiple of 6 turns, a negative count or `[center]` leaves the list unchanged |
| Hex.RotatedCellNoTurn | pypog/gridlib.py:631-634 | a count of 0 or less turns no cell |
| Hex.RotatedCellFixesOnlyCenter | pypog/gridlib.py:628-635 | only the centre is turned onto the centre |
| Hex.RotatedCellUndo | pypog/gridlib.py:628-635 | turning k then m sixths with k + m a multiple of 6 restores the cell |
| Hex.RotatedUndo | pypog/gridlib.py:619-636 | rotating by k then m, with k + m a multiple of 6, restores the list |
| Hex.RotatedNeighbour | pypog/gridlib.py:619-636 | a neighbour of the centre stays a neighbour of the centre |
| Rectangles.Column | pypog/gridlib.py:176-177 | a vertical side: Count(ya, yb) cells, no cell twice, exactly the cells of column x from ya to yb, bottom up |
| Rectangles.Row | pypog/gridlib.py:174-175 | a horizontal side: Count(xa, xb) cells, no cell twice, exactly the cells of row y from xa to xb, left to right |
| Rectangles.Rectangle | pypog/gridlib.py:162-167 | `rectangle`: characterised by Rectangles.RectangleCells |
| Rectangles.Box | pypog/gridlib.py:166-167 | the double comprehension, x outer and y inner: characterised by Rectangles.BoxCells |
| Rectangles.BoxCells | pypog/gridlib.py:166-167 | the double comprehension has Count(x)·Count(y) cells, no repeats, exactly the cells of the box |
| Rectangles.RectangleCells | pypog/gridlib.py:162-167 | `rectangle` has (\|x2-x1\|+1)(\|y2-y1\|+1) distinct cells, exactly those of the min/max box, whichever opposite corners are given |
| Rectangles.Least | pypog/gridlib.py:87-90 | the first element after sorting: a member no greater than any other |
| Rectangles.Greatest | pypog/gridlib.py:87-90 | the last element after sorting: a member no smaller than any other |
| Rectangles.BoundingRect | pypog/gridlib.py:84-90 | `_bounding_rect` as documented: fails only on no cells; (xmin, ymin, xmax, ymax) bound every cell and each is attained |
| Rectangles.BoundsAttained | pypog/gridlib.py:84-90 | the least and greatest coordinates bound all cells and are attained |
| Rectangles.BoundingRectOfCorners | pypog/gridlib.py:84-90 | on two corners the bounds are their minima and maxima |
| Rectangles.BoundingRectAsWritten | pypog/gridlib.py:84-90 | the code's return order: the same four values as (xmin, xmax, ymin, ymax) |
| Rectangles.Sides | pypog/gridlib.py:174-177 | the four side comprehensions of `hollow_rectangle`: characterised by Rectangles.SidesCells |
| Rectangles.HollowRectangle | pypog/gridlib.py:169-177 | `hollow_rectangle` with the documented bounds: characterised by Rectangles.HollowRectangleCells, Rectangles.HollowRectangleCorners and Rectangles.HollowRectangleSymmetric |
| Rectangles.HollowRectangleAsWritten | pypog/gridlib.py:169-177 | `hollow_rectangle` with the bounds in line 90's order: characterised by Rectangles.HollowRectangleAsWrittenMissesCorner |
| Rectangles.SidesCells | pypog/gridlib.py:174-177 | the four comprehensions list 2·Count(x) + 2·Count(y) cells, exactly those on the four sides |
| Rectangles.HollowRectangleCells | pypog/gridlib.py:169-177 | with the documented bounds, the hollow rectangle holds exactly the cells of the rectangle on one of its sides, 2(\|x2-x1\|+1) + 2(\|y2-y1\|+1) entries |
| Rectangles.HollowRectangleCorners | pypog/gridlib.py:169-177 | all four corners appear |
| Rectangles.HollowRectangleSymmetric | pypog/gridlib.py:169-177 | swapping the corners gives the same list |
| Rectangles.HollowRectangleAsWrittenMissesCorner | pypog/gridlib.py:169-177 | with the as-written bounds, hollow_rectangle(0, 0, 2, 5) misses its corner (2, 5) |
| Zones.Zone | pypog/gridlib.py:125-140 | a negative radius is refused; otherwise the buffer after `radius` rounds |
| Zones.Ball | pypog/gridlib.py:125-140 | the zone as a recursive definition: characterised by Zones.BallIsDistanceBall and Zones.BallIsReachable, and computed by the method Zones.Zone |
| Zones.Round | pypog/gridlib.py:136-139 | one round adds the neighbours of every cell the buffer held at its start |
| Zones.ExpandOneMore | pypog/gridlib.py:138-139 | adding one cell's neighbours to the buffer is the expansion of one more cell |
| Zones.BallGrows | pypog/gridlib.py:134-139 | zone(x, y, 0) = {(x, y)}; the centre is in every zone; zone(r) ⊆ zone(r + 1) |
| Zones.BallMonotone | pypog/gridlib.py:134-139 | a larger radius never gives a smaller zone |
| Zones.BallNext | pypog/gridlib.py:136-139 | unfolding lemma: a cell is in zone(r) iff it is in zone(r-1) or neighbours a cell of it |
| Zones.BallWithinDepth | pypog/gridlib.py:125-140 | for any neighbour function and any measure that rises by at most one per step, every cell of zone(r) is at measure at most r |
| Zones.DepthWithinBall | pypog/gridlib.py:125-140 | for any neighbour function and any measure whose cells each have a neighbour one closer, every cell at measure at most r is in zone(r) |
| Zones.BallIsDistanceBall | pypog/gridlib.py:125-140 | on both grids, zone(o, r) is exactly the set of cells at distance at most r (Chebyshev or `distance_off`) |
| Zones.WalkEndsInBall | pypog/gridlib.py:125-140 | every cell reached from the centre in at most r neighbour steps is in the zone |
| Zones.BallCellHasWalk | pypog/gridlib.py:125-140 | every cell of the zone is reached from the centre in at most r neighbour steps |
| Zones.BallIsReachable | pypog/gridlib.py:125-140 | a cell is in zone(r) iff some walk of at most r steps reaches it |
| Pencils.Flood | pypog/pencil.py:201-212 | the flood loop ends with exactly the cells reachable from the origin through similar grid neighbours |
| Pencils.FloodInvInit | pypog/pencil.py:202-204 | the starting selection and buffer satisfy the flood invariant (origin selected, buffer disjoint from the selection, every selected cell fillable) |
| Pencils.FloodInvAccept | pypog/pencil.py:207-210 | selecting a popped similar cell and queueing its unselected neighbours keeps the invariant |
| Pencils.FloodInvReject | pypog/pencil.py:207-208 | dropping a popped dissimilar cell keeps the invariant |
| Pencils.FloodAcceptShrinks | pypog/pencil.py:206-210 | each accepted cell leaves fewer grid cells unselected, which bounds the loop |
| Pencils.FloodInvDone | pypog/pencil.py:206-212 | with the buffer empty, the selection is exactly the fillable cells |
| Pencils.FillableOrigin | pypog/pencil.py:202-204 | the origin is always filled |
| Pencils.FillableStep | pypog/pencil.py:208-210 | a similar in-grid neighbour of a fillable cell is fillable |
| Pencils.FillableShape | pypog/pencil.py:201-212 | besides the origin, every selected cell is in the grid, is similar to the origin, and neighbours another selected cell |
| Pencils.NothingSimilarFillsOrigin | pypog/pencil.py:201-212 | a comparison method that never answers true selects the origin alone |
| Pencils.FootprintOneMore | pypog/pencil.py:136-137 | one more line cell unions its zone into the result |
| Pencils.Footprint | pypog/pencil.py:131-137 | the union of the zones around the line cells: characterised by Pencils.FootprintIsNear and Pencils.FootprintCovers, and computed by the loop of Pencils.Pencil.LineUpdate |
| Pencils.FootprintCovers | pypog/pencil.py:136-137 | every line cell is in its own zone, so in the thick line |
| Pencils.FootprintIsNear | pypog/pencil.py:131-141 | a cell is in the thick line iff it is within distance `size` of a line cell |
| Pencils.SquareLineSelectionHoldsEnds | pypog/pencil.py:133-137 | with the square line, the thick line holds the origin and the position |
| Pencils.Pencil.constructor | pypog/pencil.py:30-43 | a new pencil: size 1, no origin, position or history, nothing selected, added or removed |
| Pencils.Pencil.SetSize | pypog/pencil.py:56-64 | a size of at most 0 is refused and the size is kept; any other size is stored |
| Pencils.Pencil.Added | pypog/pencil.py:197-199 | `added`: the paint pot answers its whole selection; always a part of the selection |
| Pencils.Pencil.DeltaLaw | pypog/pencil.py:139-141 | after an _update, added ∩ removed = ∅ and selection = (old − removed) ∪ added |
| Pencils.Pencil.LineUpdate | pypog/pencil.py:126-141 | selection = union of zone(c, size) over the line from origin to position; added = new − old; removed = old − new |
| Pencils.Pencil.SimpleUpdate | pypog/pencil.py:149-155 | selection = old ∪ zone(position, size); added = zone − old; removed untouched |
| Pencils.Pencil.FillUpdate | pypog/pencil.py:201-212 | the selection becomes exactly the cells the paint pot can fill from the origin |
| Pencils.Pencil.Recompute | pypog/pencil.py:95-99 | `_update` dispatched on the kind of pencil, leaving the recomputed state |
| Pencils.Pencil.BaseUpdate | pypog/pencil.py:109-119 | refused before the start with nothing changed; otherwise the position is set, and only a position new to the history is appended and recomputes; a replayed one changes nothing else |
| Pencils.Pencil.Update | pypog/pencil.py:193-195 | the paint pot ignores an update once it has a selection; otherwise as BasePencil.update |
| Pencils.Pencil.BaseStart | pypog/pencil.py:101-107 | refused while something is selected, with nothing changed; otherwise origin = (x0, y0) followed by update(x0, y0) |
| Pencils.Pencil.Start | pypog/pencil.py:101-107 | `start` of the line and freehand pencils |
| Pencils.Pencil.StartFill | pypog/pencil.py:189-191 | the comparison method is stored first; a successful start fills from (x0, y0) at once, with history [(x0, y0)] |

Every public pencil method keeps `Pencil.Valid()`. It says:
- the size is positive;
- the history has no duplicates and holds the current position;
- nothing is selected before the start;
- `added` lies in the selection and `removed` outside it;
- only the line pencil removes cells, and the paint pot never sets `added`;
- a paint pot has a history exactly when it has a selection, and then the selection holds its origin.

## Left out

- The `graphicsitem` methods compute float vertex coordinates used only for drawing.
- `FHexGrid.line` is float stepping driven by sqrt(3). A line pencil therefore carries its line function as a parameter of its kind, and only the square line is proved to keep both ends of the thick line.
- `line3d` on a hexagonal grid calls `FHexGrid.line`, so it is not modelled. `Square.Line3d` models line3d on the square grid, where it calls `SquareGrid.line`.
- Hex.OffToCube / Hex.CubeToOff: the halving of the column is read as exact integer arithmetic. Python 3's `/` computes it as a float before `int(...)`, which loses exactness above 2^53: `cv_off_cube(2**60 + 2, 0)` gives xu = -2**59, not -(2**59 + 1). Float rounding is not modelled.
- `cube_round`, both `triangle` methods and both `triangle3d` methods rely on float rounding and `1/(iAngle·sqrt(3))`.
- `_assertCoordinates`, the `isinstance` checks and `__repr__` are not modelled: Dafny's integer types make them redundant.
- `Square.Line` uses an exact integer error term in place of the float `offset` accumulated by `SquareGrid.line`. The end-point and length properties hold for the exact arithmetic; Python float rounding is not modelled.
- `Zones.Zone` returns the buffer as a set. `BaseGrid.zone`'s `list(buffer)` has an order that is not modelled.
- `zone` calls `cls.neighbors`, which calls the undefined `cls._is_in` (gridlib.py:102) and so raises AttributeError. The model uses the unfiltered `_neighbors`, since a class method has no grid dimensions to filter by. `Grids.Grid.Neighbors` models the intended filter with the grid's width and height, mirroring `__contains__`.
- `_bounding_rect` calls `.sort()` on the tuples `zip` returns, which raises AttributeError. The model uses the least and greatest coordinates that sorting is meant to give.
- `__iter__` ends by raising StopIteration inside a generator, which newer Pythons turn into RuntimeError. The model is only the sequence of cells yielded.
- The height setter's error message says 'width'. Messages are not modelled; the error is InvalidDimension.
- Exceptions are modelled as `Error` values. Messages and exception classes are not modelled.
- `SimplePencil._update` joins two sets with `+`, which raises TypeError. It is modelled as the union the comment beside it intends.
- The pencil module's geometry calls are bound as follows:
  - `geometry.zone` is bound to `zone`.
  - `geometry.neighbours_of` is bound to the grid-bounded neighbours, which is what makes the paint pot terminate.
  - The unused `prompt_toolkit` and `pypog.Grid` imports are not part of this model.
- The paint pot's `_comparing_method` set in `__init__` is never read, so it is not modelled.
- The paint pot is not modelled on unbounded grids. There it may not terminate, which its docstring leaves to the caller.
- `Pencils.Flood` chooses the popped cell nondeterministically, like `set.pop()`. The model proves any order gives the same selection, but not the order in which cells are visited.
- `Hex.TurnCell` is the inner turning loop of `FHexGrid.rotate`, written as a method of its own. `Square.Rotate` keeps its inner loop in place.
- `Pencils.Pencil.DeltaLaw` is stated for the line and freehand pencils, and for a paint pot started from an empty selection, since the paint pot never sets `added` or `removed`.

## Findings

| source | as written | input that shows it | evidently intended | confidence | as-written member | corrected member |
|---|---|---|---|---|---|---|
| pypog/gridlib.py:84-90, 173 | `_bounding_rect` returns (xmin, xmax, ymin, ymax), but `hollow_rectangle` unpacks it as (xmin, ymin, xmax, ymax) | hollow_rectangle(0, 0, 2, 5), once line 88's `.sort()` on a tuple is replaced by `sorted()` and so no longer raises: `_bounding_rect` gives (0, 2, 0, 5), read as xmin = 0, ymin = 2, xmax = 0, ymax = 5, so the sides cover only column 0 from row 2 to row 5 and the corner (2, 5) is missing | return (xmin, ymin, xmax, ymax) as the doc comment says, so that the hollow rectangle is the four sides of the box | not executed | Rectangles.BoundingRectAsWritten, Rectangles.HollowRectangleAsWrittenMissesCorner | Rectangles.BoundingRect, Rectangles.HollowRectangleCells |
