/** The pencils of pypog: a selection of cells that evolves as the pencil
    is started on a cell and then moved over the grid. */
module Pencils {
  import opened Coordinates
  import opened Grids
  import Zones

  // ---------------------------------------------------------------------
  // Paint-pot flood fill
  // ---------------------------------------------------------------------

  /** What a paint pot fills from: the grid it is bounded by, the cell it
      starts on and the comparison method that says which cells are
      similar to that cell. */
  datatype FillScope = FillScope(
    topology: Topology,
    width: int,
    height: int,
    origin: Cell,
    similar: (Cell, Cell) -> bool)

  /** The neighbours the fill may spread to: those inside the grid. */
  function Around(s: FillScope, c: Cell): seq<Cell> {
    BoundedNeighbours(s.topology, s.width, s.height, c)
  }

  /** b is a cell of the grid next to a that is similar to the origin. */
  predicate FillStep(s: FillScope, a: Cell, b: Cell) {
    b in Around(s, a) && s.similar(s.origin, b)
  }

  /** A path the paint can flow along: from the origin, each cell next to
      the one before, inside the grid and similar to the origin. */
  predicate FillPath(s: FillScope, path: seq<Cell>) {
    |path| > 0 && path[0] == s.origin &&
    forall i :: 0 < i < |path| ==> FillStep(s, path[i - 1], path[i])
  }

  /** The cells a paint pot started on the origin is meant to select. */
  ghost predicate Fillable(s: FillScope, c: Cell) {
    exists path :: FillPath(s, path) && path[|path| - 1] == c
  }

  /** The cells of the grid, and the origin (which may lie outside it). */
  function Universe(s: FillScope): set<Cell> {
    (set x, y | 0 <= x < s.width && 0 <= y < s.height :: (x, y)) + {s.origin}
  }

  lemma AroundInUniverse(s: FillScope, c: Cell)
    ensures Elements(Around(s, c)) <= Universe(s)
  {
    forall n | n in Around(s, c) ensures n in Universe(s) {
      assert n == (n.0, n.1);
    }
  }

  /** The state of the flood loop: `selection` holds only fillable cells,
      reached through `buffer` cells queued next to them; every similar
      neighbour of a selected cell is selected or still queued. */
  ghost predicate FloodInv(s: FillScope, selection: set<Cell>, buffer: set<Cell>) {
    selection <= Universe(s) && buffer <= Universe(s) &&
    s.origin in selection && buffer !! selection &&
    (forall c :: c in selection ==> Fillable(s, c)) &&
    (forall b :: b in buffer ==> exists p :: p in selection && b in Around(s, p)) &&
    (forall c, n :: c in selection && n in Around(s, c) ==>
      n in selection || n in buffer || !s.similar(s.origin, n))
  }

  lemma FillableOrigin(s: FillScope)
    ensures Fillable(s, s.origin)
  {
    assert FillPath(s, [s.origin]);
  }

  /** A fillable cell's similar neighbour inside the grid is fillable. */
  lemma FillableStep(s: FillScope, p: Cell, b: Cell)
    requires Fillable(s, p) && FillStep(s, p, b)
    ensures Fillable(s, b)
  {
    var path :| FillPath(s, path) && path[|path| - 1] == p;
    var longer := path + [b];
    forall i | 0 < i < |longer| ensures FillStep(s, longer[i - 1], longer[i]) {
      if i < |path| {
        assert longer[i - 1] == path[i - 1] && longer[i] == path[i];
      }
    }
    assert FillPath(s, longer);
  }

  lemma FloodInvInit(s: FillScope)
    ensures FloodInv(s, {s.origin}, Elements(Around(s, s.origin)))
  {
    FillableOrigin(s);
    AroundInUniverse(s, s.origin);
    NeighboursAtDistanceOne(s.topology, s.origin);
  }

  /** Popping a cell that is not similar keeps the invariant. */
  lemma FloodInvReject(s: FillScope, selection: set<Cell>, buffer: set<Cell>, b: Cell)
    requires FloodInv(s, selection, buffer) && b in buffer && !s.similar(s.origin, b)
    ensures FloodInv(s, selection, buffer - {b})
  {
  }

  /** Popping a similar cell, selecting it and queueing its unselected
      neighbours keeps the invariant. */
  lemma FloodInvAccept(s: FillScope, selection: set<Cell>, buffer: set<Cell>, b: Cell)
    requires FloodInv(s, selection, buffer) && b in buffer && s.similar(s.origin, b)
    ensures FloodInv(s, selection + {b}, (buffer - {b}) + (Elements(Around(s, b)) - (selection + {b})))
  {
    var p :| p in selection && b in Around(s, p);
    FillableStep(s, p, b);
    AroundInUniverse(s, b);
  }

  /** Selecting a queued cell leaves fewer cells of the grid unselected. */
  lemma FloodAcceptShrinks(s: FillScope, selection: set<Cell>, buffer: set<Cell>, b: Cell)
    requires FloodInv(s, selection, buffer) && b in buffer
    ensures |Universe(s) - (selection + {b})| < |Universe(s) - selection|
  {
    assert Universe(s) - (selection + {b}) < Universe(s) - selection;
  }

  /** Once the buffer is empty the selection is closed, so it holds
      every fillable cell. */
  lemma FloodInvDone(s: FillScope, selection: set<Cell>)
    requires FloodInv(s, selection, {})
    ensures forall c :: c in selection <==> Fillable(s, c)
  {
    forall c | Fillable(s, c) ensures c in selection {
      var path :| FillPath(s, path) && path[|path| - 1] == c;
      PathInSelection(s, selection, path);
    }
  }

  lemma {:induction false} PathInSelection(s: FillScope, selection: set<Cell>, path: seq<Cell>)
    requires FloodInv(s, selection, {}) && FillPath(s, path)
    ensures path[|path| - 1] in selection
    decreases |path|
  {
    if |path| > 1 {
      var prefix := path[..|path| - 1];
      assert FillPath(s, prefix) by {
        forall i | 0 < i < |prefix| ensures FillStep(s, prefix[i - 1], prefix[i]) {
          assert prefix[i - 1] == path[i - 1] && prefix[i] == path[i];
        }
      }
      PathInSelection(s, selection, prefix);
      assert FillStep(s, path[|path| - 2], path[|path| - 1]);
    }
  }

  /** PaintPotPencil._update: start from the origin with its neighbours
      in the buffer; pop cells one at a time and, when a cell is similar
      to the origin, select it and queue its neighbours not yet
      selected. The result is exactly the set of fillable cells. */
  method Flood(s: FillScope) returns (selection: set<Cell>)
    ensures forall c :: c in selection <==> Fillable(s, c)
  {
    selection := {s.origin};
    var buffer := Elements(Around(s, s.origin));
    FloodInvInit(s);
    while buffer != {}
      invariant FloodInv(s, selection, buffer)
      decreases |Universe(s) - selection|, |buffer|
    {
      var b :| b in buffer;
      if s.similar(s.origin, b) {
        FloodInvAccept(s, selection, buffer, b);
        FloodAcceptShrinks(s, selection, buffer, b);
        selection, buffer := selection + {b}, (buffer - {b}) + (Elements(Around(s, b)) - (selection + {b}));
      } else {
        FloodInvReject(s, selection, buffer, b);
        buffer := buffer - {b};
      }
    }
    FloodInvDone(s, selection);
  }

  /** Besides the origin, every fillable cell lies in the grid, is similar
      to the origin and is next to another fillable cell. */
  lemma FillableShape(s: FillScope, c: Cell)
    requires Fillable(s, c) && c != s.origin
    ensures InBounds(s.width, s.height, c) && s.similar(s.origin, c)
    ensures exists p :: Fillable(s, p) && c in Around(s, p)
  {
    var path :| FillPath(s, path) && path[|path| - 1] == c;
    var n := |path|;
    assert FillStep(s, path[n - 2], path[n - 1]);
    var prefix := path[..n - 1];
    assert FillPath(s, prefix) by {
      forall i | 0 < i < |prefix| ensures FillStep(s, prefix[i - 1], prefix[i]) {
        assert prefix[i - 1] == path[i - 1] && prefix[i] == path[i];
      }
    }
    assert Fillable(s, path[n - 2]);
  }

  /** With a comparison method that never answers true, the paint pot
      selects the origin alone. */
  lemma NothingSimilarFillsOrigin(s: FillScope)
    requires forall c :: !s.similar(s.origin, c)
    ensures forall c :: Fillable(s, c) <==> c == s.origin
  {
    FillableOrigin(s);
    forall c | Fillable(s, c) ensures c == s.origin {
      if c != s.origin {
        FillableShape(s, c);
      }
    }
  }

  // ---------------------------------------------------------------------
  // Thick lines and freehand strokes
  // ---------------------------------------------------------------------

  /** The union of zone(c, size) over the cells c of `cells`. */
  function Footprint(topology: Topology, cells: set<Cell>, size: nat): set<Cell> {
    set c, z | c in cells && z in Zones.Ball(NeighbourMap(topology), c, size) :: z
  }

  lemma FootprintOneMore(topology: Topology, cells: set<Cell>, c: Cell, size: nat)
    ensures Footprint(topology, cells + {c}, size) == Footprint(topology, cells, size) + Zones.Ball(NeighbourMap(topology), c, size)
  {
  }

  /** Every cell of `cells` is in its own zone, so in the footprint. */
  lemma FootprintCovers(topology: Topology, cells: set<Cell>, c: Cell, size: nat)
    requires c in cells
    ensures c in Footprint(topology, cells, size)
  {
    Zones.BallGrows(NeighbourMap(topology), c, size);
  }

  /** A footprint is the set of cells within `size` steps of one of its
      cells. */
  lemma FootprintIsNear(topology: Topology, cells: set<Cell>, size: nat, z: Cell)
    ensures z in Footprint(topology, cells, size) <==>
      exists c :: c in cells && Distance(topology, c, z) <= size
  {
    if z in Footprint(topology, cells, size) {
      var c :| c in cells && z in Zones.Ball(NeighbourMap(topology), c, size);
      Zones.BallIsDistanceBall(topology, c, size);
    }
    if exists c :: c in cells && Distance(topology, c, z) <= size {
      var c :| c in cells && Distance(topology, c, z) <= size;
      Zones.BallIsDistanceBall(topology, c, size);
    }
  }

  /** The selection of a line pencil drawn with the square line: the zones
      of radius `size` around every cell of the line. */
  function LineSelection(topology: Topology, line: seq<Cell>, size: nat): set<Cell> {
    Footprint(topology, Elements(line), size)
  }

  /** With the square line, the thick line holds both of its ends. */
  lemma SquareLineSelectionHoldsEnds(p: Cell, q: Cell, size: nat)
    ensures p in LineSelection(SquareTopology, Square.SquareLine(p, q), size)
    ensures q in LineSelection(SquareTopology, Square.SquareLine(p, q), size)
  {
    var line := Square.SquareLine(p, q);
    Square.LineShape(p, q);
    assert line[0] in Elements(line) && line[|line| - 1] in Elements(line);
    FootprintCovers(SquareTopology, Elements(line), p, size);
    FootprintCovers(SquareTopology, Elements(line), q, size);
  }

  // ---------------------------------------------------------------------
  // The pencil
  // ---------------------------------------------------------------------

  /** Which subclass of BasePencil a pencil is. A line pencil carries the
      line function geometry.line2d gives for its grid's cell shape. */
  datatype Kind =
    | LinePencil(line2d: (Cell, Cell) -> seq<Cell>)
    | SimplePencil
    | PaintPotPencil

  class Pencil {
    const grid: Grid
    const kind: Kind
    var origin: Option<Cell>
    var position: Option<Cell>
    var history: seq<Cell>
    var size: int
    var selection: set<Cell>
    var added: set<Cell>
    var removed: set<Cell>
    /** The paint pot's comparison method, given to its start. */
    var similar: (Cell, Cell) -> bool

    /** What every public operation keeps: a positive size; a history of
        distinct positions holding the current one; nothing selected
        before the start; the added cells selected and the removed ones
        not; only the line pencil removes cells and the paint pot never
        sets `added`; a paint pot has a history exactly once it has a
        selection, and then the selection holds the origin. */
    ghost predicate Valid()
      reads this, grid
    {
      Core() &&
      (kind.PaintPotPencil? ==> (selection == {} <==> history == [])) &&
      (kind.PaintPotPencil? && selection != {} ==> origin.Some? && origin.value in selection)
    }

    /** Valid() but for the paint pot's clauses, which hold again once the
        position has been recorded and the selection recomputed. */
    ghost predicate Core()
      reads this, grid
    {
      grid.Valid() && size > 0 && Distinct(history) &&
      (position.Some? ==> position.value in history) &&
      (origin.None? ==> position.None? && history == [] && selection == {}) &&
      added <= selection && removed !! selection &&
      (!kind.LinePencil? ==> removed == {}) &&
      (kind.PaintPotPencil? ==> added == {})
    }

    /** BasePencil.__init__: size 1, nothing selected, not started. */
    constructor (grid: Grid, kind: Kind)
      requires grid.Valid()
      ensures this.grid == grid && this.kind == kind
      ensures origin.None? && position.None? && history == [] && size == 1
      ensures selection == {} && added == {} && removed == {}
      ensures Valid()
    {
      this.grid := grid;
      this.kind := kind;
      origin := None;
      position := None;
      history := [];
      size := 1;
      selection := {};
      added := {};
      removed := {};
      similar := (a: Cell, b: Cell) => false;
    }

    /** The size setter: a size that is not > 0 is refused and the size
        is kept. */
    method SetSize(size: int) returns (outcome: Outcome)
      requires Valid()
      modifies this`size
      ensures Valid()
      ensures size > 0 ==> outcome == Pass && this.size == size
      ensures size <= 0 ==> outcome == Fail(InvalidDimension) && this.size == old(this.size)
    {
      if size <= 0 {
        return Fail(InvalidDimension);
      }
      this.size := size;
      return Pass;
    }

    /** The fill a paint pot started on the origin is bounded by. */
    function Scope(): FillScope
      reads this, grid
      requires origin.Some?
    {
      FillScope(grid.topology, grid.width, grid.height, origin.value, similar)
    }

    /** The state _update leaves, given the selection it started from. */
    ghost predicate Recomputed(before: set<Cell>)
      reads this, grid
      requires origin.Some? && position.Some? && size > 0
    {
      match kind
      case LinePencil(line2d) =>
        selection == LineSelection(grid.topology, line2d(origin.value, position.value), size) &&
        added == selection - before && removed == before - selection
      case SimplePencil =>
        var zone := Zones.Ball(NeighbourMap(grid.topology), position.value, size);
        selection == before + zone && added == zone - before
      case PaintPotPencil =>
        forall c :: c in selection <==> Fillable(Scope(), c)
    }

    /** The `added` property: the paint pot answers its whole selection. */
    function Added(): (r: set<Cell>)
      reads this, grid
      requires Valid()
      ensures r <= selection
      ensures kind.PaintPotPencil? ==> r == selection
    {
      if kind.PaintPotPencil? then selection else added
    }

    /** After an _update, `added` and `removed` are disjoint and carry the
        previous selection to the new one. */
    lemma DeltaLaw(before: set<Cell>)
      requires Valid() && origin.Some? && position.Some? && Recomputed(before)
      requires kind.PaintPotPencil? ==> before == {}
      ensures Added() !! removed
      ensures selection == (before - removed) + Added()
    {
    }

    /** LinePencil._update: the zones of radius `size` around every cell of
        the line from the origin to the position, with the full delta. */
    method LineUpdate()
      requires Valid() && kind.LinePencil? && origin.Some? && position.Some?
      modifies this`selection, this`added, this`removed
      ensures Valid() && Recomputed(old(selection))
    {
      var before, line := selection, Elements(kind.line2d(origin.value, position.value));
      var result: set<Cell> := {};
      var pending := line;
      while pending != {}
        invariant pending <= line
        invariant result == Footprint(grid.topology, line - pending, size)
        decreases |pending|
      {
        var c :| c in pending;
        var zone := Zones.Zone(grid.topology, c.0, c.1, size);
        FootprintOneMore(grid.topology, line - pending, c, size);
        assert (line - pending) + {c} == line - (pending - {c});
        result := result + zone.value;
        pending := pending - {c};
      }
      assert line - pending == line;
      assert result == LineSelection(grid.topology, kind.line2d(origin.value, position.value), size);
      added, removed, selection := result - before, before - result, result;
    }

    /** SimplePencil._update: the zone around the position joins the
        selection; nothing is ever removed. */
    method SimpleUpdate()
      requires Valid() && kind.SimplePencil? && origin.Some? && position.Some?
      modifies this`selection, this`added
      ensures Valid() && Recomputed(old(selection))
    {
      var zone := Zones.Zone(grid.topology, position.value.0, position.value.1, size);
      added := zone.value - selection;
      selection := selection + zone.value;
    }

    /** PaintPotPencil._update: the flood fill from the origin. */
    method FillUpdate()
      requires Core() && kind.PaintPotPencil? && origin.Some? && position.Some? && history != []
      modifies this`selection
      ensures Valid() && Recomputed(old(selection))
    {
      var filled := Flood(Scope());
      FillableOrigin(Scope());
      selection := filled;
    }

    /** self._update(), dispatched on the kind of pencil. */
    method Recompute()
      requires Core() && origin.Some? && position.Some? && history != []
      requires !kind.PaintPotPencil? ==> Valid()
      modifies this`selection, this`added, this`removed
      ensures Valid() && Recomputed(old(selection))
    {
      match kind
      case LinePencil(_) => LineUpdate();
      case SimplePencil => SimpleUpdate();
      case PaintPotPencil => FillUpdate();
    }

    /** BasePencil.update: refused before the start; otherwise the position
        moves, and only a position new to the history is recorded and
        recomputes the selection. */
    method BaseUpdate(x: int, y: int) returns (outcome: Outcome)
      requires Valid()
      modifies this`position, this`history, this`selection, this`added, this`removed
      ensures Valid()
      ensures old(origin).None? ==>
        outcome == Fail(NotStarted) && position == old(position) && history == old(history) &&
        selection == old(selection) && added == old(added) && removed == old(removed)
      ensures old(origin).Some? ==> outcome == Pass && position == Some((x, y))
      ensures old(origin).Some? && (x, y) in old(history) ==>
        history == old(history) && selection == old(selection) && added == old(added) && removed == old(removed)
      ensures old(origin).Some? && (x, y) !in old(history) ==>
        history == old(history) + [(x, y)] && Recomputed(old(selection))
    {
      if origin.None? {
        return Fail(NotStarted);
      }
      position := Some((x, y));
      if (x, y) !in history {
        history := history + [(x, y)];
        Recompute();
      }
      return Pass;
    }

    /** update(x, y); the paint pot ignores it once it has a selection. */
    method Update(x: int, y: int) returns (outcome: Outcome)
      requires Valid()
      modifies this`position, this`history, this`selection, this`added, this`removed
      ensures Valid()
      ensures kind.PaintPotPencil? && old(selection) != {} ==>
        outcome == Pass && position == old(position) && history == old(history) &&
        selection == old(selection) && added == old(added) && removed == old(removed)
      ensures !(kind.PaintPotPencil? && old(selection) != {}) && old(origin).None? ==>
        outcome == Fail(NotStarted) && position == old(position) && history == old(history) &&
        selection == old(selection) && added == old(added) && removed == old(removed)
      ensures !(kind.PaintPotPencil? && old(selection) != {}) && old(origin).Some? ==>
        outcome == Pass && position == Some((x, y)) &&
        ((x, y) in old(history) ==>
          history == old(history) && selection == old(selection) && added == old(added) && removed == old(removed)) &&
        ((x, y) !in old(history) ==> history == old(history) + [(x, y)] && Recomputed(old(selection)))
    {
      if kind.PaintPotPencil? && selection != {} {
        return Pass;
      }
      outcome := BaseUpdate(x, y);
    }

    /** BasePencil.start: refused while something is selected; otherwise
        the origin is set and the pencil is updated on it. */
    method BaseStart(x0: int, y0: int) returns (outcome: Outcome)
      requires Valid()
      modifies this`origin, this`position, this`history, this`selection, this`added, this`removed
      ensures Valid()
      ensures old(selection) != {} ==>
        outcome == Fail(AlreadyStarted) && origin == old(origin) && position == old(position) &&
        history == old(history) && selection == old(selection) && added == old(added) && removed == old(removed)
      ensures old(selection) == {} ==>
        outcome == Pass && origin == Some((x0, y0)) && position == Some((x0, y0)) &&
        ((x0, y0) in old(history) ==>
          history == old(history) && selection == old(selection) && added == old(added) && removed == old(removed)) &&
        ((x0, y0) !in old(history) ==> history == old(history) + [(x0, y0)] && Recomputed(old(selection)))
    {
      if selection != {} {
        return Fail(AlreadyStarted);
      }
      origin := Some((x0, y0));
      outcome := Update(x0, y0);
    }

    /** start(x0, y0) of the line and simple pencils. */
    method Start(x0: int, y0: int) returns (outcome: Outcome)
      requires Valid() && !kind.PaintPotPencil?
      modifies this`origin, this`position, this`history, this`selection, this`added, this`removed
      ensures Valid()
      ensures old(selection) != {} ==>
        outcome == Fail(AlreadyStarted) && origin == old(origin) && position == old(position) &&
        history == old(history) && selection == old(selection) && added == old(added) && removed == old(removed)
      ensures old(selection) == {} ==>
        outcome == Pass && origin == Some((x0, y0)) && position == Some((x0, y0)) &&
        ((x0, y0) in old(history) ==>
          history == old(history) && selection == old(selection) && added == old(added) && removed == old(removed)) &&
        ((x0, y0) !in old(history) ==> history == old(history) + [(x0, y0)] && Recomputed(old(selection)))
    {
      outcome := BaseStart(x0, y0);
    }

    /** PaintPotPencil.start: the comparison method is stored first, even
        when the start is then refused; a successful start fills from
        (x0, y0) at once. */
    method StartFill(x0: int, y0: int, similar: (Cell, Cell) -> bool) returns (outcome: Outcome)
      requires Valid() && kind.PaintPotPencil?
      modifies this`similar, this`origin, this`position, this`history, this`selection, this`added, this`removed
      ensures Valid() && this.similar == similar
      ensures old(selection) != {} ==>
        outcome == Fail(AlreadyStarted) && origin == old(origin) && position == old(position) &&
        history == old(history) && selection == old(selection)
      ensures old(selection) == {} ==>
        outcome == Pass && origin == Some((x0, y0)) && position == Some((x0, y0)) &&
        history == [(x0, y0)] && (forall c :: c in selection <==> Fillable(Scope(), c))
    {
      this.similar := similar;
      outcome := BaseStart(x0, y0);
    }
  }
}
