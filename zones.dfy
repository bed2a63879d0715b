/** BaseGrid.zone: the cells within `radius` neighbour steps of a cell,
    grown one ring per round over a set buffer. zone reaches the
    neighbours through the grid class's neighbour method, so the zone is
    defined here over any neighbour function `near`; the facts that need
    the grid's own distance are stated for the two topologies. */
module Zones {
  import opened Coordinates
  import opened Grids

  /** The cells one neighbour step away from some cell of s. */
  function Expand(near: Cell -> seq<Cell>, s: set<Cell>): set<Cell> {
    set c, n | c in s && n in near(c) :: n
  }

  /** The buffer after r rounds: each round adds the neighbours of every
      cell the buffer held at the start of the round. */
  function Ball(near: Cell -> seq<Cell>, o: Cell, r: nat): set<Cell>
    decreases r
  {
    if r == 0 then {o} else Ball(near, o, r - 1) + Expand(near, Ball(near, o, r - 1))
  }

  lemma ExpandOneMore(near: Cell -> seq<Cell>, s: set<Cell>, c: Cell)
    ensures Expand(near, s + {c}) == Expand(near, s) + Elements(near(c))
  {
  }

  /** zone(x, y, radius): a negative radius is refused; otherwise the
      buffer after `radius` rounds. */
  method Zone(topology: Topology, x: int, y: int, radius: int) returns (r: Result<set<Cell>>)
    ensures radius < 0 ==> r == Failure(InvalidRadius)
    ensures radius >= 0 ==> r == Success(Ball(NeighbourMap(topology), (x, y), radius))
  {
    if radius < 0 {
      return Failure(InvalidRadius);
    }
    var buffer := {(x, y)};
    for i := 0 to radius
      invariant buffer == Ball(NeighbourMap(topology), (x, y), i)
    {
      buffer := Round(NeighbourMap(topology), buffer);
    }
    return Success(buffer);
  }

  /** One round of zone: the neighbours of every cell of `current` are
      added to the buffer. */
  method Round(near: Cell -> seq<Cell>, current: set<Cell>) returns (buffer: set<Cell>)
    ensures buffer == current + Expand(near, current)
  {
    buffer := current;
    var pending := current;
    while pending != {}
      invariant pending <= current
      invariant buffer == current + Expand(near, current - pending)
      decreases |pending|
    {
      var c :| c in pending;
      ExpandOneMore(near, current - pending, c);
      assert (current - pending) + {c} == current - (pending - {c});
      buffer := buffer + Elements(near(c));
      pending := pending - {c};
    }
    assert current - pending == current;
  }

  /** The centre is in every zone, the zone of radius 0 is the centre
      alone, and a larger radius gives a larger zone. */
  lemma {:induction false} BallGrows(near: Cell -> seq<Cell>, o: Cell, r: nat)
    ensures Ball(near, o, 0) == {o}
    ensures o in Ball(near, o, r)
    ensures Ball(near, o, r) <= Ball(near, o, r + 1)
    decreases r
  {
    if r > 0 {
      BallGrows(near, o, r - 1);
    }
  }

  lemma BallMonotone(near: Cell -> seq<Cell>, o: Cell, r: nat, s: nat)
    requires r <= s
    ensures Ball(near, o, r) <= Ball(near, o, s)
    decreases s - r
  {
    if r < s {
      BallGrows(near, o, r);
      BallMonotone(near, o, r + 1, s);
    }
  }

  /** One more round adds exactly the neighbours of the cells already
      held. */
  lemma BallNext(near: Cell -> seq<Cell>, o: Cell, r: nat, c: Cell)
    requires r > 0
    ensures c in Ball(near, o, r) <==> c in Ball(near, o, r - 1) || c in Expand(near, Ball(near, o, r - 1))
  {
  }

  lemma ExpandHas(near: Cell -> seq<Cell>, s: set<Cell>, p: Cell, c: Cell)
    requires p in s && c in near(p)
    ensures c in Expand(near, s)
  {
  }

  /** A cell of Expand(s) is the neighbour of some cell of s. */
  lemma ExpandSource(near: Cell -> seq<Cell>, s: set<Cell>, c: Cell) returns (p: Cell)
    requires c in Expand(near, s)
    ensures p in s && c in near(p)
  {
    p :| p in s && c in near(p);
  }

  // ---------------------------------------------------------------------
  // Zones are distance balls
  // ---------------------------------------------------------------------

  /** What the proof that zones are distance balls needs of a neighbour
      function and a measure `depth` of how far each cell is from o:
      only o is at depth 0, a neighbour is at most one deeper, and every
      cell at a positive depth is a neighbour of the cell `back` names,
      one shallower. */
  ghost predicate Rooted(o: Cell, depth: Cell -> nat) {
    forall c :: depth(c) == 0 <==> c == o
  }

  ghost predicate StepsRiseByOne(near: Cell -> seq<Cell>, depth: Cell -> nat) {
    forall p, n :: n in near(p) ==> depth(n) <= depth(p) + 1
  }

  ghost predicate StepsBack(near: Cell -> seq<Cell>, depth: Cell -> nat, back: Cell -> Cell) {
    forall c {:trigger back(c)} :: depth(c) > 0 ==> depth(back(c)) == depth(c) - 1 && c in near(back(c))
  }

  lemma {:induction false} BallWithinDepth(near: Cell -> seq<Cell>, o: Cell, depth: Cell -> nat, r: nat, c: Cell)
    requires Rooted(o, depth) && StepsRiseByOne(near, depth) && c in Ball(near, o, r)
    ensures depth(c) <= r
    decreases r
  {
    if r == 0 {
      assert depth(o) == 0;
    } else {
      BallNext(near, o, r, c);
      if c in Ball(near, o, r - 1) {
        BallWithinDepth(near, o, depth, r - 1, c);
      } else {
        var p := ExpandSource(near, Ball(near, o, r - 1), c);
        BallWithinDepth(near, o, depth, r - 1, p);
      }
    }
  }

  lemma {:induction false} DepthWithinBall(near: Cell -> seq<Cell>, o: Cell, depth: Cell -> nat, back: Cell -> Cell, r: nat, c: Cell)
    requires Rooted(o, depth) && StepsBack(near, depth, back) && depth(c) <= r
    ensures c in Ball(near, o, r)
    decreases r
  {
    if r == 0 {
      assert c == o;
    } else {
      BallNext(near, o, r, c);
      if depth(c) <= r - 1 {
        DepthWithinBall(near, o, depth, back, r - 1, c);
      } else {
        var p := back(c);
        DepthWithinBall(near, o, depth, back, r - 1, p);
        ExpandHas(near, Ball(near, o, r - 1), p, c);
      }
    }
  }

  /** The distance from o on a grid of the topology, as a depth. */
  function DepthFrom(topology: Topology, o: Cell): Cell -> nat {
    c => Distance(topology, o, c)
  }

  /** A cell next to c and one closer to o (c itself when c is o). */
  ghost function StepBack(topology: Topology, o: Cell, c: Cell): (p: Cell)
    ensures Distance(topology, o, c) > 0 ==>
      Distance(topology, o, p) == Distance(topology, o, c) - 1 && c in Neighbours(topology, p)
  {
    if Distance(topology, o, c) > 0 then
      StepBackExists(topology, o, c);
      var p :| Distance(topology, o, p) == Distance(topology, o, c) - 1 && c in Neighbours(topology, p);
      p
    else c
  }

  lemma StepBackExists(topology: Topology, o: Cell, c: Cell)
    requires Distance(topology, o, c) > 0
    ensures exists p :: Distance(topology, o, p) == Distance(topology, o, c) - 1 && c in Neighbours(topology, p)
  {
    var p := StepToward(topology, o, c);
  }

  ghost function BackFrom(topology: Topology, o: Cell): Cell -> Cell {
    c => StepBack(topology, o, c)
  }

  lemma GridRooted(topology: Topology, o: Cell)
    ensures Rooted(o, DepthFrom(topology, o))
  {
    forall c ensures Distance(topology, o, c) == 0 <==> c == o {
      DistanceMetric(topology, o, c, c);
    }
  }

  lemma GridStepsRiseByOne(topology: Topology, o: Cell)
    ensures StepsRiseByOne(NeighbourMap(topology), DepthFrom(topology, o))
  {
    forall p, n | n in Neighbours(topology, p) ensures Distance(topology, o, n) <= Distance(topology, o, p) + 1 {
      NeighboursAtDistanceOne(topology, p);
      DistanceMetric(topology, o, p, n);
    }
  }

  lemma GridStepsBack(topology: Topology, o: Cell)
    ensures StepsBack(NeighbourMap(topology), DepthFrom(topology, o), BackFrom(topology, o))
  {
  }

  /** The zone of radius r is the set of cells at distance at most r:
      on a square grid the (2r+1) by (2r+1) square, on a hexagonal grid
      the hexagon of cells within distance_off r. */
  lemma BallIsDistanceBall(topology: Topology, o: Cell, r: nat)
    ensures forall c :: c in Ball(NeighbourMap(topology), o, r) <==> Distance(topology, o, c) <= r
  {
    var near, depth, back := NeighbourMap(topology), DepthFrom(topology, o), BackFrom(topology, o);
    GridRooted(topology, o);
    GridStepsRiseByOne(topology, o);
    GridStepsBack(topology, o);
    forall c ensures c in Ball(near, o, r) <==> depth(c) <= r {
      if c in Ball(near, o, r) {
        BallWithinDepth(near, o, depth, r, c);
      }
      if depth(c) <= r {
        DepthWithinBall(near, o, depth, back, r, c);
      }
    }
  }

  // ---------------------------------------------------------------------
  // Zones are reachability balls
  // ---------------------------------------------------------------------

  /** b is one of the neighbours of a. */
  predicate Adjacent(near: Cell -> seq<Cell>, a: Cell, b: Cell) {
    b in near(a)
  }

  /** A walk: a non-empty sequence of cells, each a neighbour of the one
      before. */
  predicate IsWalk(near: Cell -> seq<Cell>, w: seq<Cell>) {
    |w| > 0 && forall i :: 0 <= i < |w| - 1 ==> Adjacent(near, w[i], w[i + 1])
  }

  /** Every cell reachable from o in at most r neighbour steps is in the
      zone of radius r. */
  lemma {:induction false} WalkEndsInBall(near: Cell -> seq<Cell>, o: Cell, r: nat, w: seq<Cell>)
    requires IsWalk(near, w) && w[0] == o && |w| <= r + 1
    ensures w[|w| - 1] in Ball(near, o, r)
    decreases |w|
  {
    if |w| == 1 {
      BallGrows(near, o, r);
    } else {
      var w', last := WalkPrefix(near, w);
      WalkEndsInBall(near, o, r - 1, w');
      ExpandHas(near, Ball(near, o, r - 1), w'[|w'| - 1], last);
      BallNext(near, o, r, last);
    }
  }

  /** Dropping the last cell of a walk of two or more cells leaves a walk
      whose last cell neighbours the dropped one. */
  lemma WalkPrefix(near: Cell -> seq<Cell>, w: seq<Cell>) returns (w': seq<Cell>, last: Cell)
    requires IsWalk(near, w) && |w| > 1
    ensures IsWalk(near, w') && w'[0] == w[0] && |w'| == |w| - 1
    ensures last == w[|w| - 1] && last in near(w'[|w'| - 1])
  {
    w', last := w[..|w| - 1], w[|w| - 1];
    assert Adjacent(near, w[|w| - 2], w[|w| - 1]);
  }

  /** Every cell of the zone of radius r is reached from o by a walk of at
      most r steps. */
  lemma {:induction false} BallCellHasWalk(near: Cell -> seq<Cell>, o: Cell, r: nat, c: Cell) returns (w: seq<Cell>)
    requires c in Ball(near, o, r)
    ensures IsWalk(near, w) && w[0] == o && w[|w| - 1] == c && |w| <= r + 1
    decreases r
  {
    if r == 0 {
      w := [o];
    } else {
      BallNext(near, o, r, c);
      if c in Ball(near, o, r - 1) {
        w := BallCellHasWalk(near, o, r - 1, c);
      } else {
        var p := ExpandSource(near, Ball(near, o, r - 1), c);
        var v := BallCellHasWalk(near, o, r - 1, p);
        w := WalkExtend(near, v, c);
      }
    }
  }

  lemma WalkExtend(near: Cell -> seq<Cell>, v: seq<Cell>, c: Cell) returns (w: seq<Cell>)
    requires IsWalk(near, v) && c in near(v[|v| - 1])
    ensures IsWalk(near, w) && w[0] == v[0] && w[|w| - 1] == c && |w| == |v| + 1
  {
    w := v + [c];
    forall i | 0 <= i < |w| - 1 ensures Adjacent(near, w[i], w[i + 1]) {
      if i < |v| - 1 {
        assert w[i] == v[i] && w[i + 1] == v[i + 1];
      }
    }
  }

  /** The zone is exactly the set of cells reachable in at most r steps. */
  lemma BallIsReachable(near: Cell -> seq<Cell>, o: Cell, r: nat, c: Cell)
    ensures c in Ball(near, o, r) <==>
      exists w :: IsWalk(near, w) && w[0] == o && w[|w| - 1] == c && |w| <= r + 1
  {
    if c in Ball(near, o, r) {
      var w := BallCellHasWalk(near, o, r, c);
    }
    forall w | IsWalk(near, w) && w[0] == o && w[|w| - 1] == c && |w| <= r + 1
      ensures c in Ball(near, o, r)
    {
      WalkEndsInBall(near, o, r, w);
    }
  }
}
