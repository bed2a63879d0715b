/** The square topology (gridlib's SquareGrid): eight-way adjacency,
    Bresenham line rasterisation, its 3D extension and quarter-turn
    rotation about a centre. */
module Square {
  import opened Coordinates

  // ---------------------------------------------------------------------
  // Adjacency
  // ---------------------------------------------------------------------

  /** The eight cells around c, diagonals included, in SquareGrid._neighbors' order. */
  function Neighbours(c: Cell): seq<Cell> {
    var (x, y) := c;
    [(x - 1, y - 1), (x, y - 1), (x + 1, y - 1),
     (x - 1, y), (x + 1, y),
     (x - 1, y + 1), (x, y + 1), (x + 1, y + 1)]
  }

  /** The neighbours are eight distinct cells, and they are exactly the
      cells at Chebyshev distance 1 (so c itself is never among them). */
  lemma NeighboursAreKingMoves(c: Cell)
    ensures |Neighbours(c)| == 8 && Distinct(Neighbours(c))
    ensures forall n :: n in Neighbours(c) <==> Chebyshev(c, n) == 1
  {
    var (x, y) := c;
    forall n | Chebyshev(c, n) == 1 ensures n in Neighbours(c) {
      var i := (n.0 - x + 1) + 3 * (n.1 - y + 1);
      assert 0 <= i < 9 && i != 4;
      if i < 4 { assert Neighbours(c)[i] == n; } else { assert Neighbours(c)[i - 1] == n; }
    }
  }

  function Sign(n: int): int { if n > 0 then 1 else if n < 0 then -1 else 0 }

  /** A cell at Chebyshev distance k > 0 from o is a neighbour of a cell
      at distance k - 1: one king move towards o. */
  lemma StepToward(o: Cell, c: Cell) returns (p: Cell)
    requires Chebyshev(o, c) > 0
    ensures Chebyshev(o, p) == Chebyshev(o, c) - 1 && c in Neighbours(p)
  {
    p := (c.0 - Sign(c.0 - o.0), c.1 - Sign(c.1 - o.1));
    NeighboursAreKingMoves(p);
  }

  // ---------------------------------------------------------------------
  // Line
  // ---------------------------------------------------------------------

  /** The minor-axis offset of the k-th cell of a line whose major-axis
      extent is dx and whose minor-axis extent is d: k*d/dx rounded to the
      nearest integer, exact halves rounded down. */
  function Rise(k: int, d: int, dx: int): int
    requires dx > 0
  {
    FloorDiv(2 * k * d + dx - 1, 2 * dx)
  }

  /** The floor of n / m, by repeated subtraction (so that the solver
      unfolds it only as far as a proof asks). */
  function FloorDiv(n: int, m: int): int
    requires m > 0
    decreases if n < 0 then m - n else n
  {
    if n < 0 then FloorDiv(n + m, m) - 1
    else if n < m then 0
    else FloorDiv(n - m, m) + 1
  }

  lemma {:induction false} FloorDivBounds(n: int, m: int)
    requires m > 0
    ensures m * FloorDiv(n, m) <= n < m * FloorDiv(n, m) + m
    decreases if n < 0 then m - n else n
  {
    if n < 0 {
      FloorDivBounds(n + m, m);
      var q := FloorDiv(n + m, m);
      assert FloorDiv(n, m) == q - 1;
      assert m * (q - 1) == m * q - m;
    } else if n >= m {
      FloorDivBounds(n - m, m);
      var q := FloorDiv(n - m, m);
      assert FloorDiv(n, m) == q + 1;
      assert m * (q + 1) == m * q + m;
    }
  }

  lemma DivIs(n: int, m: int, q: int)
    requires m > 0 && m * q <= n < m * q + m
    ensures FloorDiv(n, m) == q
  {
    var q' := FloorDiv(n, m);
    FloorDivBounds(n, m);
    if q' < q {
      MulLess(m, q', q);
    } else if q' > q {
      MulLess(m, q, q');
    }
  }

  lemma {:induction false} MulLess(m: int, a: int, b: int)
    requires m > 0 && a < b
    ensures m * a + m <= m * b
    decreases b - a
  {
    assert m * b == m * (b - 1) + m;
    if a < b - 1 {
      MulLess(m, a, b - 1);
    }
  }

  /** Rise is the one integer c that keeps the scaled error k*d - c*dx in
      the half-open window (-dx/2, dx/2]. */
  lemma RiseIs(k: int, d: int, dx: int, c: int)
    requires dx > 0
    requires -dx < 2 * (k * d - c * dx) <= dx
    ensures Rise(k, d, dx) == c
  {
    assert (2 * dx) * c <= 2 * k * d + dx - 1 < (2 * dx) * c + 2 * dx;
    DivIs(2 * k * d + dx - 1, 2 * dx, c);
  }

  lemma RiseWindow(k: int, d: int, dx: int)
    requires dx > 0
    ensures -dx < 2 * (k * d - Rise(k, d, dx) * dx) <= dx
  {
    FloorDivBounds(2 * k * d + dx - 1, 2 * dx);
  }

  /** One more major-axis step raises the minor axis by one exactly when
      the accumulated error passes one half. */
  lemma RiseNext(k: int, d: int, dx: int)
    requires 0 <= d <= dx && dx > 0
    ensures var e := k * d - Rise(k, d, dx) * dx;
      && (2 * (e + d) > dx ==> Rise(k + 1, d, dx) == Rise(k, d, dx) + 1)
      && (2 * (e + d) <= dx ==> Rise(k + 1, d, dx) == Rise(k, d, dx))
  {
    var c := Rise(k, d, dx);
    var e := k * d - c * dx;
    RiseWindow(k, d, dx);
    assert (k + 1) * d == k * d + d;
    if 2 * (e + d) > dx {
      assert (k + 1) * d - (c + 1) * dx == e + d - dx;
      RiseIs(k + 1, d, dx, c + 1);
    } else {
      assert (k + 1) * d - c * dx == e + d;
      RiseIs(k + 1, d, dx, c);
    }
  }

  lemma {:induction false} RiseMonotone(j: int, k: int, d: int, dx: int)
    requires 0 <= d <= dx && dx > 0 && j <= k
    ensures Rise(j, d, dx) <= Rise(k, d, dx)
    decreases k - j
  {
    if j < k {
      RiseNext(k - 1, d, dx);
      RiseMonotone(j, k - 1, d, dx);
    }
  }

  /** Along the whole sweep the rise goes from 0 to d. */
  lemma RiseRange(k: int, d: int, dx: int)
    requires 0 <= d <= dx && dx > 0 && 0 <= k <= dx
    ensures Rise(0, d, dx) == 0 && Rise(dx, d, dx) == d
    ensures 0 <= Rise(k, d, dx) <= d
  {
    RiseIs(0, d, dx, 0);
    RiseIs(dx, d, dx, d);
    RiseMonotone(0, k, d, dx);
    RiseMonotone(k, dx, d, dx);
  }

  function Orient(v: bool, x: int, y: int): Cell {
    if v then (y, x) else (x, y)
  }

  /** The k-th cell of the normalised sweep from (x1, y1) to (x2, y2),
      x1 < x2, put back on the original axes when v (the line is steep). */
  function SweepCell(x1: int, y1: int, x2: int, y2: int, v: bool, k: int): Cell
    requires x1 < x2
  {
    var rise := Rise(k, Abs(y2 - y1), x2 - x1);
    Orient(v, x1 + k, if y2 - y1 > 0 then y1 + rise else y1 - rise)
  }

  function Sweep(x1: int, y1: int, x2: int, y2: int, v: bool): seq<Cell>
    requires x1 < x2
  {
    seq(x2 - x1 + 1, k requires 0 <= k <= x2 - x1 => SweepCell(x1, y1, x2, y2, v, k))
  }

  /** The cells SquareGrid.line(p, q) returns: after swapping the axes of
      a steep line and ordering the end points by x, one cell per major-axis
      step, reversed again when the end points were swapped. */
  function SquareLine(p: Cell, q: Cell): seq<Cell> {
    if p == q then [p]
    else
      var v := Abs(q.1 - p.1) > Abs(q.0 - p.0);
      var a := if v then (p.1, p.0) else p;
      var b := if v then (q.1, q.0) else q;
      if a.0 > b.0 then Reversed(Sweep(b.0, b.1, a.0, a.1, v))
      else Sweep(a.0, a.1, b.0, b.1, v)
  }

  /** SquareGrid.line accumulates a float `offset` of
      |DY|/DX per step and compares it with 0.5; here it is the exact
      integer e = offset*DX, so `offset += alpha` is `e += |DY|`,
      `offset > 0.5` is `2*e > DX` and `offset -= 1` is `e -= DX`.
      Python float rounding is abstracted away: the end-point and length
      guarantees below rely on the exact arithmetic. */
  method Line(x1: int, y1: int, x2: int, y2: int) returns (result: seq<Cell>)
    ensures result == SquareLine((x1, y1), (x2, y2))
  {
    if (x1, y1) == (x2, y2) {
      return [(x1, y1)];
    }
    var xa, ya, xb, yb := x1, y1, x2, y2;
    // diagonal symmetry
    var v := Abs(yb - ya) > Abs(xb - xa);
    if v {
      xa, ya, xb, yb := ya, xa, yb, xb;
    }
    // vertical symmetry
    var reversedSym := xa > xb;
    if reversedSym {
      xa, ya, xb, yb := xb, yb, xa, ya;
    }
    result := Raster(xa, ya, xb, yb, v);
    if reversedSym {
      result := Reversed(result);
    }
  }

  /** The stepping loop of SquareGrid.line, once the end points have been
      brought to x1 < x2 with a slope of at most one. */
  method Raster(x1: int, y1: int, x2: int, y2: int, v: bool) returns (result: seq<Cell>)
    requires x1 < x2 && Abs(y2 - y1) <= x2 - x1
    ensures result == Sweep(x1, y1, x2, y2, v)
  {
    var dx, dy := x2 - x1, y2 - y1;
    var d := Abs(dy);
    var step := if dy > 0 then 1 else -1;
    var e := 0;
    var y := y1;
    result := [];
    ghost var k := 0;
    for x := x1 to x2 + 1
      invariant k == x - x1
      invariant SweepPrefix(x1, y1, x2, y2, v, result, k)
      invariant Tracks(y1, dy, dx, k, e, y)
    {
      SweepPrefixGrows(x1, y1, x2, y2, v, result, k, Orient(v, x, y));
      result := result + [Orient(v, x, y)];
      ghost var e0, y0 := e, y;
      e := e + d;
      if 2 * e > dx {
        y := y + step;
        e := e - dx;
      }
      SweepStep(k, d, dx, e0, y0, y1, dy, e, y);
      k := k + 1;
    }
    SweepPrefixWhole(x1, y1, x2, y2, v, result);
  }

  /** The first k cells of the sweep have been emitted. */
  predicate SweepPrefix(x1: int, y1: int, x2: int, y2: int, v: bool, result: seq<Cell>, k: int)
    requires x1 < x2
  {
    |result| == k && forall j :: 0 <= j < k ==> result[j] == SweepCell(x1, y1, x2, y2, v, j)
  }

  lemma SweepPrefixGrows(x1: int, y1: int, x2: int, y2: int, v: bool, result: seq<Cell>, k: int, c: Cell)
    requires x1 < x2 && SweepPrefix(x1, y1, x2, y2, v, result, k)
    requires c == SweepCell(x1, y1, x2, y2, v, k)
    ensures SweepPrefix(x1, y1, x2, y2, v, result + [c], k + 1)
  {
  }

  lemma SweepPrefixWhole(x1: int, y1: int, x2: int, y2: int, v: bool, result: seq<Cell>)
    requires x1 < x2 && SweepPrefix(x1, y1, x2, y2, v, result, x2 - x1 + 1)
    ensures result == Sweep(x1, y1, x2, y2, v)
  {
  }

  /** The loop's error term after k steps: e = offset*DX. */
  function ErrorAt(k: int, d: int, dx: int): int
    requires dx > 0
  {
    k * d - Rise(k, d, dx) * dx
  }

  /** The loop's minor-axis coordinate after k steps. */
  function MinorAt(ya: int, dy: int, dx: int, k: int): int
    requires dx > 0
  {
    if dy > 0 then ya + Rise(k, Abs(dy), dx) else ya - Rise(k, Abs(dy), dx)
  }

  /** After k steps the loop holds the error term and minor coordinate. */
  predicate Tracks(ya: int, dy: int, dx: int, k: int, e: int, y: int)
    requires dx > 0
  {
    e == ErrorAt(k, Abs(dy), dx) && y == MinorAt(ya, dy, dx, k)
  }

  /** One iteration of the loop in Raster keeps the error term and the
      minor-axis coordinate equal to their closed forms. */
  lemma SweepStep(k: int, d: int, dx: int, e: int, y: int, ya: int, dy: int, e': int, y': int)
    requires 0 <= d <= dx && dx > 0 && d == Abs(dy)
    requires Tracks(ya, dy, dx, k, e, y)
    requires 2 * (e + d) > dx ==> e' == e + d - dx && y' == y + (if dy > 0 then 1 else -1)
    requires 2 * (e + d) <= dx ==> e' == e + d && y' == y
    ensures Tracks(ya, dy, dx, k + 1, e', y')
  {
    RiseNext(k, d, dx);
    assert (k + 1) * d == k * d + d;
    var c := Rise(k, d, dx);
    assert (c + 1) * dx == c * dx + dx;
  }

  /** The normalised sweep starts and ends at its end points. */
  lemma SweepEnds(x1: int, y1: int, x2: int, y2: int, v: bool)
    requires x1 < x2 && Abs(y2 - y1) <= x2 - x1
    ensures var s := Sweep(x1, y1, x2, y2, v);
      s[0] == Orient(v, x1, y1) && s[|s| - 1] == Orient(v, x2, y2)
  {
    RiseRange(0, Abs(y2 - y1), x2 - x1);
  }

  /** The normalised sweep moves one king step at a time. */
  lemma SweepSteps(x1: int, y1: int, x2: int, y2: int, v: bool)
    requires x1 < x2 && Abs(y2 - y1) <= x2 - x1
    ensures var s := Sweep(x1, y1, x2, y2, v);
      forall i :: 0 <= i < |s| - 1 ==> Chebyshev(s[i], s[i + 1]) == 1
  {
    var s := Sweep(x1, y1, x2, y2, v);
    forall i | 0 <= i < |s| - 1 ensures Chebyshev(s[i], s[i + 1]) == 1 {
      RiseNext(i, Abs(y2 - y1), x2 - x1);
    }
  }

  /** c lies in the box with opposite corners a and b. */
  predicate InBox(a: Cell, b: Cell, c: Cell) {
    Min(a.0, b.0) <= c.0 <= Max(a.0, b.0) && Min(a.1, b.1) <= c.1 <= Max(a.1, b.1)
  }

  /** The normalised sweep stays inside the box of its end points. */
  lemma SweepInBox(x1: int, y1: int, x2: int, y2: int, v: bool)
    requires x1 < x2 && Abs(y2 - y1) <= x2 - x1
    ensures forall c :: c in Sweep(x1, y1, x2, y2, v) ==> InBox(Orient(v, x1, y1), Orient(v, x2, y2), c)
  {
    var s := Sweep(x1, y1, x2, y2, v);
    forall c | c in s ensures InBox(Orient(v, x1, y1), Orient(v, x2, y2), c) {
      var i :| 0 <= i < |s| && s[i] == c;
      RiseRange(i, Abs(y2 - y1), x2 - x1);
    }
  }

  /** SquareLine(p, q) for p != q is a normalised sweep, perhaps reversed. */
  lemma LineIsSweep(p: Cell, q: Cell) returns (x1: int, y1: int, x2: int, y2: int, v: bool, rev: bool)
    requires p != q
    ensures x1 < x2 && Abs(y2 - y1) <= x2 - x1 && x2 - x1 == Chebyshev(p, q)
    ensures SquareLine(p, q) == if rev then Reversed(Sweep(x1, y1, x2, y2, v)) else Sweep(x1, y1, x2, y2, v)
    ensures Orient(v, x1, y1) == (if rev then q else p) && Orient(v, x2, y2) == (if rev then p else q)
  {
    v := Abs(q.1 - p.1) > Abs(q.0 - p.0);
    var a := if v then (p.1, p.0) else p;
    var b := if v then (q.1, q.0) else q;
    rev := a.0 > b.0;
    if rev {
      x1, y1, x2, y2 := b.0, b.1, a.0, a.1;
    } else {
      x1, y1, x2, y2 := a.0, a.1, b.0, b.1;
    }
  }

  /** Reversing a walk of king steps gives a walk of king steps. */
  lemma ReversedKingSteps(s: seq<Cell>)
    requires forall i :: 0 <= i < |s| - 1 ==> Chebyshev(s[i], s[i + 1]) == 1
    ensures var l := Reversed(s); forall i :: 0 <= i < |l| - 1 ==> Chebyshev(l[i], l[i + 1]) == 1
  {
    var l := Reversed(s);
    forall i | 0 <= i < |l| - 1 ensures Chebyshev(l[i], l[i + 1]) == 1 {
      assert l[i] == s[|s| - 1 - i] && l[i + 1] == s[|s| - 2 - i];
      ChebyshevMetric(s[|s| - 2 - i], s[|s| - 1 - i], s[0]);
    }
  }

  /** SquareGrid.line(p, q) starts at p, ends at q, has one cell per step
      of the longer axis and moves one king step at a time. */
  lemma LineShape(p: Cell, q: Cell)
    ensures var l := SquareLine(p, q);
      && |l| == Chebyshev(p, q) + 1
      && l[0] == p && l[|l| - 1] == q
      && forall i :: 0 <= i < |l| - 1 ==> Chebyshev(l[i], l[i + 1]) == 1
  {
    LineLength(p, q);
    LineEnds(p, q);
    LineSteps(p, q);
  }

  lemma LineEnds(p: Cell, q: Cell)
    ensures var l := SquareLine(p, q); |l| > 0 && l[0] == p && l[|l| - 1] == q
  {
    if p != q {
      var x1, y1, x2, y2, v, rev := LineIsSweep(p, q);
      SweepEnds(x1, y1, x2, y2, v);
    }
  }

  lemma LineSteps(p: Cell, q: Cell)
    ensures var l := SquareLine(p, q); forall i :: 0 <= i < |l| - 1 ==> Chebyshev(l[i], l[i + 1]) == 1
  {
    if p != q {
      var x1, y1, x2, y2, v, rev := LineIsSweep(p, q);
      SweepSteps(x1, y1, x2, y2, v);
      if rev {
        ReversedKingSteps(Sweep(x1, y1, x2, y2, v));
      }
    }
  }

  /** Every cell of the line lies in the bounding box of its end points. */
  lemma LineInBox(p: Cell, q: Cell)
    ensures forall c :: c in SquareLine(p, q) ==>
      Min(p.0, q.0) <= c.0 <= Max(p.0, q.0) && Min(p.1, q.1) <= c.1 <= Max(p.1, q.1)
  {
    if p != q {
      var x1, y1, x2, y2, v, rev := LineIsSweep(p, q);
      var s := Sweep(x1, y1, x2, y2, v);
      SweepInBox(x1, y1, x2, y2, v);
      forall c | c in SquareLine(p, q) ensures InBox(p, q, c) {
        if rev {
          ReversedElements(s, c);
        }
        assert InBox(Orient(v, x1, y1), Orient(v, x2, y2), c);
      }
    }
  }

  /** SquareGrid.line(p, q) has one cell per step of the longer axis. */
  lemma LineLength(p: Cell, q: Cell)
    ensures |SquareLine(p, q)| == Chebyshev(p, q) + 1
  {
    if p != q {
      var x1, y1, x2, y2, v, rev := LineIsSweep(p, q);
    }
  }

  /** Drawing the line backwards gives the same cells in reverse order. */
  lemma LineReversal(p: Cell, q: Cell)
    ensures SquareLine(q, p) == Reversed(SquareLine(p, q))
  {
    if p != q {
      var v := Abs(q.1 - p.1) > Abs(q.0 - p.0);
      var a := if v then (p.1, p.0) else p;
      var b := if v then (q.1, q.0) else q;
      assert v == (Abs(p.1 - q.1) > Abs(p.0 - q.0));
      if a.0 > b.0 {
        assert SquareLine(q, p) == Sweep(b.0, b.1, a.0, a.1, v);
        ReversedTwice(Sweep(b.0, b.1, a.0, a.1, v));
      } else {
        assert SquareLine(q, p) == Reversed(Sweep(a.0, a.1, b.0, b.1, v));
      }
    }
  }

  // ---------------------------------------------------------------------
  // 3D line
  // ---------------------------------------------------------------------

  /** An (x, y, z) cell: a grid cell and an altitude. */
  type Cell3 = (int, int, int)

  /** BaseGrid.line3d on a square grid: the flat line from (x1, y1) to
      (x2, y2); the altitude follows a second square line from (0, z1) to
      (last index of the flat line, z2) whose x coordinate picks the flat
      cell, or is the constant z1 when z1 == z2. */
  function Line3d(x1: int, y1: int, z1: int, x2: int, y2: int, z2: int): seq<Cell3> {
    var flat := SquareLine((x1, y1), (x2, y2));
    LineShape((x1, y1), (x2, y2));
    if z1 == z2 then
      seq(|flat|, i requires 0 <= i < |flat| => (flat[i].0, flat[i].1, z1))
    else
      var rise := SquareLine((0, z1), (|flat| - 1, z2));
      LineInBox((0, z1), (|flat| - 1, z2));
      seq(|rise|, i requires 0 <= i < |rise| =>
        assert rise[i] in rise;
        (flat[rise[i].0].0, flat[rise[i].0].1, rise[i].1))
  }

  /** With equal altitudes, line3d is the flat line at altitude z1. */
  lemma Line3dLevel(x1: int, y1: int, z: int, x2: int, y2: int)
    ensures var flat, l := SquareLine((x1, y1), (x2, y2)), Line3d(x1, y1, z, x2, y2, z);
      && |l| == |flat|
      && forall i :: 0 <= i < |l| ==> (l[i].0, l[i].1) == flat[i] && l[i].2 == z
  {
  }

  /** With different altitudes, element i of line3d takes its altitude
      from cell i of the vertical line and its (x, y) from the flat cell
      that cell's x coordinate indexes. */
  lemma Line3dAt(x1: int, y1: int, z1: int, x2: int, y2: int, z2: int)
    requires z1 != z2
    ensures var flat := SquareLine((x1, y1), (x2, y2));
      var rise := SquareLine((0, z1), (|flat| - 1, z2));
      var l := Line3d(x1, y1, z1, x2, y2, z2);
      && |flat| >= 1 && |l| == |rise|
      && forall i :: 0 <= i < |l| ==>
           0 <= rise[i].0 < |flat| && l[i] == (flat[rise[i].0].0, flat[rise[i].0].1, rise[i].1)
  {
    var flat := SquareLine((x1, y1), (x2, y2));
    LineShape((x1, y1), (x2, y2));
    var rise := SquareLine((0, z1), (|flat| - 1, z2));
    LineInBox((0, z1), (|flat| - 1, z2));
    forall i | 0 <= i < |rise| ensures 0 <= rise[i].0 < |flat| {
      assert rise[i] in rise;
    }
  }

  /** With different altitudes, line3d runs from (x1, y1, z1) to
      (x2, y2, z2), every (x, y) it visits is a cell of the flat line, and
      the altitude changes by at most one per element. */
  lemma Line3dSloped(x1: int, y1: int, z1: int, x2: int, y2: int, z2: int)
    requires z1 != z2
    ensures var flat, l := SquareLine((x1, y1), (x2, y2)), Line3d(x1, y1, z1, x2, y2, z2);
      && |l| == Max(|flat| - 1, Abs(z2 - z1)) + 1
      && l[0] == (x1, y1, z1) && l[|l| - 1] == (x2, y2, z2)
      && (forall i :: 0 <= i < |l| ==> (l[i].0, l[i].1) in flat)
      && (forall i :: 0 <= i < |l| - 1 ==> Abs(l[i + 1].2 - l[i].2) <= 1)
  {
    Line3dSlopedLength(x1, y1, z1, x2, y2, z2);
    Line3dSlopedRest(x1, y1, z1, x2, y2, z2);
  }

  lemma Line3dSlopedLength(x1: int, y1: int, z1: int, x2: int, y2: int, z2: int)
    requires z1 != z2
    ensures var flat, l := SquareLine((x1, y1), (x2, y2)), Line3d(x1, y1, z1, x2, y2, z2);
      |flat| >= 1 && |l| == Max(|flat| - 1, Abs(z2 - z1)) + 1
  {
    var flat := SquareLine((x1, y1), (x2, y2));
    Line3dAt(x1, y1, z1, x2, y2, z2);
    var n := |flat| - 1;
    LineLength((0, z1), (n, z2));
    assert Chebyshev((0, z1), (n, z2)) == Max(n, Abs(z2 - z1));
  }

  lemma Line3dSlopedRest(x1: int, y1: int, z1: int, x2: int, y2: int, z2: int)
    requires z1 != z2
    ensures var flat, l := SquareLine((x1, y1), (x2, y2)), Line3d(x1, y1, z1, x2, y2, z2);
      && |l| >= 1
      && l[0] == (x1, y1, z1) && l[|l| - 1] == (x2, y2, z2)
      && (forall i :: 0 <= i < |l| ==> (l[i].0, l[i].1) in flat)
      && (forall i :: 0 <= i < |l| - 1 ==> Abs(l[i + 1].2 - l[i].2) <= 1)
  {
    var flat := SquareLine((x1, y1), (x2, y2));
    var rise := SquareLine((0, z1), (|flat| - 1, z2));
    LineEnds((x1, y1), (x2, y2));
    LineEnds((0, z1), (|flat| - 1, z2));
    LineSteps((0, z1), (|flat| - 1, z2));
    Line3dAt(x1, y1, z1, x2, y2, z2);
    LiftedShape(flat, rise, Line3d(x1, y1, z1, x2, y2, z2), z1, z2);
  }

  /** A sequence of 3D cells built, as line3d does, from a vertical line
      `rise` that indexes the flat line `flat`, inherits its ends and its
      unit altitude steps from `rise` and its plane cells from `flat`. */
  lemma LiftedShape(flat: seq<Cell>, rise: seq<Cell>, l: seq<Cell3>, z1: int, z2: int)
    requires |flat| >= 1 && |rise| >= 1 && |l| == |rise|
    requires forall i :: 0 <= i < |l| ==>
      0 <= rise[i].0 < |flat| && l[i] == (flat[rise[i].0].0, flat[rise[i].0].1, rise[i].1)
    requires rise[0] == (0, z1) && rise[|rise| - 1] == (|flat| - 1, z2)
    requires forall i :: 0 <= i < |rise| - 1 ==> Chebyshev(rise[i], rise[i + 1]) == 1
    ensures l[0] == (flat[0].0, flat[0].1, z1)
    ensures l[|l| - 1] == (flat[|flat| - 1].0, flat[|flat| - 1].1, z2)
    ensures forall i :: 0 <= i < |l| ==> (l[i].0, l[i].1) in flat
    ensures forall i :: 0 <= i < |l| - 1 ==> Abs(l[i + 1].2 - l[i].2) <= 1
  {
    forall i | 0 <= i < |l| ensures (l[i].0, l[i].1) in flat {
      assert (l[i].0, l[i].1) == flat[rise[i].0];
    }
    forall i | 0 <= i < |l| - 1 ensures Abs(l[i + 1].2 - l[i].2) <= 1 {
      assert Chebyshev(rise[i], rise[i + 1]) == 1;
    }
  }

  // ---------------------------------------------------------------------
  // Rotation
  // ---------------------------------------------------------------------

  /** A quarter turn of an offset from the centre: (dx, dy) -> (dy, -dx). */
  function QuarterTurn(d: Cell): Cell { (d.1, -d.0) }

  function QuarterTurns(d: Cell, n: nat): Cell
    decreases n
  {
    if n == 0 then d else QuarterTurn(QuarterTurns(d, n - 1))
  }

  /** c turned `rotations` quarter turns about center; SquareGrid.rotate's
      `range(rotations)` runs no turn at all when rotations is negative. */
  function RotatedCell(center: Cell, c: Cell, rotations: int): Cell {
    var d := QuarterTurns((c.0 - center.0, c.1 - center.1), if rotations > 0 then rotations else 0);
    (d.0 + center.0, d.1 + center.1)
  }

  function Rotated(center: Cell, coordinates: seq<Cell>, rotations: int): seq<Cell> {
    if coordinates == [center] || rotations % 4 == 0 then coordinates
    else seq(|coordinates|, i requires 0 <= i < |coordinates| => RotatedCell(center, coordinates[i], rotations))
  }

  /** SquareGrid.rotate: turns every cell `rotations` times about center. */
  method Rotate(center: Cell, coordinates: seq<Cell>, rotations: int) returns (result: seq<Cell>)
    ensures result == Rotated(center, coordinates, rotations)
  {
    if coordinates == [center] || rotations % 4 == 0 {
      return coordinates;
    }
    var (x0, y0) := center;
    result := [];
    for i := 0 to |coordinates|
      invariant |result| == i
      invariant forall j :: 0 <= j < i ==> result[j] == RotatedCell(center, coordinates[j], rotations)
    {
      var (x, y) := coordinates[i];
      var dx, dy := x - x0, y - y0;
      var t := 0;
      while t < rotations
        invariant 0 <= t <= Max(rotations, 0)
        invariant (dx, dy) == QuarterTurns((x - x0, y - y0), t)
      {
        dx, dy := dy, -dx;
        t := t + 1;
      }
      result := result + [(dx + x0, dy + y0)];
    }
  }

  lemma {:induction false} QuarterTurnsCompose(d: Cell, a: nat, b: nat)
    ensures QuarterTurns(QuarterTurns(d, a), b) == QuarterTurns(d, a + b)
    decreases b
  {
    if b > 0 {
      QuarterTurnsCompose(d, a, b - 1);
    }
  }

  /** Quarter turns have period 4. */
  lemma {:induction false} QuarterTurnsPeriodic(d: Cell, n: nat)
    ensures QuarterTurns(d, n) == QuarterTurns(d, n % 4)
    decreases n
  {
    if n >= 4 {
      QuarterTurnsPeriodic(d, n - 4);
      QuarterTurnsCompose(d, n - 4, 4);
    }
  }

  lemma {:induction false} QuarterTurnsKeepNorm(d: Cell, n: nat)
    ensures Chebyshev((0, 0), QuarterTurns(d, n)) == Chebyshev((0, 0), d)
    decreases n
  {
    if n > 0 {
      QuarterTurnsKeepNorm(d, n - 1);
    }
  }

  /** Rotation keeps the number of cells and each cell's Chebyshev
      distance to the centre. */
  lemma RotatedKeepsDistances(center: Cell, coordinates: seq<Cell>, rotations: int)
    ensures var r := Rotated(center, coordinates, rotations);
      && |r| == |coordinates|
      && forall i :: 0 <= i < |r| ==> Chebyshev(center, r[i]) == Chebyshev(center, coordinates[i])
  {
    var r := Rotated(center, coordinates, rotations);
    forall i | 0 <= i < |r| ensures Chebyshev(center, r[i]) == Chebyshev(center, coordinates[i]) {
      var c := coordinates[i];
      QuarterTurnsKeepNorm((c.0 - center.0, c.1 - center.1), if rotations > 0 then rotations else 0);
    }
  }

  /** A multiple of four turns, a negative count (no loop iteration) or
      the centre alone leave the coordinates as they are. */
  lemma RotatedIdentity(center: Cell, coordinates: seq<Cell>, rotations: int)
    requires rotations % 4 == 0 || rotations < 0 || coordinates == [center]
    ensures Rotated(center, coordinates, rotations) == coordinates
  {
  }

  lemma RotatedCellUndo(center: Cell, c: Cell, k: nat, m: nat)
    requires (k + m) % 4 == 0
    ensures RotatedCell(center, RotatedCell(center, c, k), m) == c
  {
    var d := (c.0 - center.0, c.1 - center.1);
    var r := RotatedCell(center, c, k);
    assert (r.0 - center.0, r.1 - center.1) == QuarterTurns(d, k);
    QuarterTurnsCompose(d, k, m);
    QuarterTurnsPeriodic(d, k + m);
  }

  /** Only the centre itself lands on the centre. */
  lemma RotatedCellFixesOnlyCenter(center: Cell, c: Cell, k: int)
    ensures RotatedCell(center, c, k) == center ==> c == center
  {
    QuarterTurnsKeepNorm((c.0 - center.0, c.1 - center.1), if k > 0 then k else 0);
  }

  /** Turning k times and then m times, k + m a multiple of 4, gives back
      the original coordinates. */
  lemma RotatedUndo(center: Cell, coordinates: seq<Cell>, k: nat, m: nat)
    requires (k + m) % 4 == 0
    ensures Rotated(center, Rotated(center, coordinates, k), m) == coordinates
  {
    if k % 4 != 0 && coordinates != [center] {
      var r := Rotated(center, coordinates, k);
      if |coordinates| == 1 {
        RotatedCellFixesOnlyCenter(center, coordinates[0], k);
      }
      assert r != [center];
      var r2 := Rotated(center, r, m);
      assert |r2| == |coordinates|;
      forall i | 0 <= i < |coordinates| ensures r2[i] == coordinates[i] {
        RotatedCellUndo(center, coordinates[i], k, m);
      }
    }
  }
}
