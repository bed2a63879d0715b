/** The flat-topped hexagonal grid (_HexGrid and FHexGrid): conversions
    between offset and cube coordinates, hex distances, the six
    neighbours of a cell and rotation by sixths of a turn. */
module Hex {
  import opened Coordinates

  /** Cube coordinates of a hexagon; the cells of the grid lie on the
      plane xu + yu + zu == 0. */
  datatype Cube = Cube(xu: int, yu: int, zu: int)

  predicate OnPlane(u: Cube) { u.xu + u.yu + u.zu == 0 }

  /** int((x - (x & 1)) / 2), read as exact integer arithmetic: x & 1 is
      the non-negative remainder x % 2, so the numerator is even and its
      half an integer. Python computes the half as a float, which is
      exact only up to 2^53. */
  function HalfDown(x: int): (h: int)
    ensures 2 * h == x - x % 2
  {
    (x - x % 2) / 2
  }

  /** cv_off_cube: the column becomes zu, the row is shifted by half the
      column. */
  function OffToCube(c: Cell): (u: Cube)
    ensures OnPlane(u) && u.zu == c.0
  {
    var zu := c.0;
    var xu := c.1 - HalfDown(c.0);
    Cube(xu, -xu - zu, zu)
  }

  /** cv_cube_off: the inverse shift; yu is not read, so on the plane
      converting back with cv_off_cube gives u again. */
  function CubeToOff(u: Cube): (c: Cell)
    ensures OnPlane(u) ==> OffToCube(c) == u
  {
    (u.zu, u.xu + HalfDown(u.zu))
  }

  lemma OffCubeRoundTrip(c: Cell)
    ensures CubeToOff(OffToCube(c)) == c
  {
  }

  lemma OffToCubeInjective(a: Cell, b: Cell)
    ensures OffToCube(a) == OffToCube(b) <==> a == b
  {
    OffCubeRoundTrip(a);
    OffCubeRoundTrip(b);
  }

  /** hex_distance_cube: the largest coordinate difference. */
  function CubeDistance(a: Cube, b: Cube): nat {
    Max(Max(Abs(a.xu - b.xu), Abs(a.yu - b.yu)), Abs(a.zu - b.zu))
  }

  /** distance_off: the cube distance between the converted cells. */
  function DistanceOff(a: Cell, b: Cell): nat {
    CubeDistance(OffToCube(a), OffToCube(b))
  }

  lemma CubeDistanceTriangle(a: Cube, b: Cube, c: Cube)
    ensures CubeDistance(a, c) <= CubeDistance(a, b) + CubeDistance(b, c)
  {
    AbsTriangle(a.xu, b.xu, c.xu);
    AbsTriangle(a.yu, b.yu, c.yu);
    AbsTriangle(a.zu, b.zu, c.zu);
  }

  lemma AbsTriangle(p: int, q: int, r: int)
    ensures Abs(p - r) <= Abs(p - q) + Abs(q - r)
  {
  }

  /** The hex distance is a metric on offset cells. */
  lemma DistanceOffMetric(a: Cell, b: Cell, c: Cell)
    ensures DistanceOff(a, b) == DistanceOff(b, a)
    ensures DistanceOff(a, b) == 0 <==> a == b
    ensures DistanceOff(a, c) <= DistanceOff(a, b) + DistanceOff(b, c)
  {
    OffToCubeInjective(a, b);
    CubeDistanceTriangle(OffToCube(a), OffToCube(b), OffToCube(c));
  }

  /** FHexGrid._neighbors: which six cells depends on the column's
      parity. */
  function Neighbours(c: Cell): seq<Cell> {
    var (x, y) := c;
    if x % 2 == 0 then
      [(x, y - 1), (x + 1, y - 1), (x + 1, y), (x, y + 1), (x - 1, y), (x - 1, y - 1)]
    else
      [(x, y - 1), (x + 1, y), (x + 1, y + 1), (x, y + 1), (x - 1, y + 1), (x - 1, y)]
  }

  lemma HalfDownStep(x: int)
    ensures x % 2 == 0 ==> HalfDown(x + 1) == HalfDown(x) && HalfDown(x - 1) == HalfDown(x) - 1
    ensures x % 2 == 1 ==> HalfDown(x + 1) == HalfDown(x) + 1 && HalfDown(x - 1) == HalfDown(x)
  {
  }

  /** Six distinct neighbours, and they are exactly the cells at hex
      distance 1. */
  lemma NeighboursAreAdjacent(c: Cell)
    ensures |Neighbours(c)| == 6 && Distinct(Neighbours(c))
    ensures forall n :: n in Neighbours(c) <==> DistanceOff(c, n) == 1
  {
    NeighboursAreNear(c);
    forall n | DistanceOff(c, n) == 1 ensures n in Neighbours(c) {
      NeighbourOfDistanceOne(c, n);
    }
  }

  lemma NeighboursAreNear(c: Cell)
    ensures |Neighbours(c)| == 6 && Distinct(Neighbours(c))
    ensures forall i :: 0 <= i < |Neighbours(c)| ==> DistanceOff(c, Neighbours(c)[i]) == 1
  {
    if c.0 % 2 == 0 {
      EvenColumnNear(c);
    } else {
      OddColumnNear(c);
    }
  }

  lemma EvenColumnNear(c: Cell)
    requires c.0 % 2 == 0
    ensures forall i :: 0 <= i < |Neighbours(c)| ==> DistanceOff(c, Neighbours(c)[i]) == 1
  {
    HalfDownStep(c.0);
  }

  lemma OddColumnNear(c: Cell)
    requires c.0 % 2 == 1
    ensures forall i :: 0 <= i < |Neighbours(c)| ==> DistanceOff(c, Neighbours(c)[i]) == 1
  {
    HalfDownStep(c.0);
  }

  lemma NeighbourOfDistanceOne(c: Cell, n: Cell)
    requires DistanceOff(c, n) == 1
    ensures n in Neighbours(c)
  {
    var (x, y) := c;
    HalfDownStep(x);
    var dz := n.0 - x;
    var dy := n.1 - y;
    assert -1 <= dz <= 1;
    if dz == 0 {
      assert n == (x, y - 1) || n == (x, y + 1);
    } else if x % 2 == 0 && dz == 1 {
      assert n == (x + 1, y - 1) || n == (x + 1, y);
    } else if x % 2 == 0 {
      assert n == (x - 1, y) || n == (x - 1, y - 1);
    } else if dz == 1 {
      assert n == (x + 1, y) || n == (x + 1, y + 1);
    } else {
      assert n == (x - 1, y + 1) || n == (x - 1, y);
    }
  }

  /** A cell at hex distance k > 0 from o is a neighbour of a cell at
      distance k - 1: in cube space, step the largest coordinate of the
      difference down and the smallest up. */
  lemma StepToward(o: Cell, c: Cell) returns (p: Cell)
    requires DistanceOff(o, c) > 0
    ensures DistanceOff(o, p) == DistanceOff(o, c) - 1 && c in Neighbours(p)
  {
    var u0, u := OffToCube(o), OffToCube(c);
    var d := Sub(u, u0);
    DistanceIsLength(u0, u);
    var e := UnitToward(d);
    var q := Add(u0, Sub(d, e));
    p := CubeToOff(q);
    assert OffToCube(p) == q;
    DistanceIsLength(u0, q);
    assert Sub(q, u0) == Sub(d, e);
    DistanceIsLength(q, u);
    assert Sub(u, q) == e;
    assert DistanceOff(p, c) == 1;
    NeighboursAreAdjacent(p);
  }

  /** The cube distance is the length of the difference vector. */
  lemma DistanceIsLength(a: Cube, b: Cube)
    ensures CubeDistance(a, b) == CubeDistance(Cube(0, 0, 0), Sub(b, a))
  {
  }

  /** For a non-zero difference d on the plane, a unit vector e (a
      permutation of (1, -1, 0)) such that d - e is one step shorter. */
  lemma UnitToward(d: Cube) returns (e: Cube)
    requires OnPlane(d) && d != Cube(0, 0, 0)
    ensures OnPlane(e) && CubeDistance(Cube(0, 0, 0), e) == 1
    ensures CubeDistance(Cube(0, 0, 0), Sub(d, e)) == CubeDistance(Cube(0, 0, 0), d) - 1
  {
    var (a, b, c) := (d.xu, d.yu, d.zu);
    if a >= b && a >= c {
      e := if b <= c then Cube(1, -1, 0) else Cube(1, 0, -1);
    } else if b >= a && b >= c {
      e := if a <= c then Cube(-1, 1, 0) else Cube(0, 1, -1);
    } else {
      e := if a <= b then Cube(-1, 0, 1) else Cube(0, -1, 1);
    }
    UnitStep(d, e);
  }

  /** Taking a unit step e off d shortens d by one when e points the way
      d does in each coordinate e moves. */
  lemma UnitStep(d: Cube, e: Cube)
    requires OnPlane(d) && OnPlane(e) && Abs(e.xu) + Abs(e.yu) + Abs(e.zu) == 2
    requires AbsStep(d.xu, e.xu) && AbsStep(d.yu, e.yu) && AbsStep(d.zu, e.zu)
    ensures CubeDistance(Cube(0, 0, 0), e) == 1
    ensures CubeDistance(Cube(0, 0, 0), Sub(d, e)) == CubeDistance(Cube(0, 0, 0), d) - 1
  {
    PlaneNorm(e);
    StepShortens(d, e);
  }

  lemma StepShortens(d: Cube, e: Cube)
    requires OnPlane(d) && OnPlane(e) && Abs(e.xu) + Abs(e.yu) + Abs(e.zu) == 2
    requires AbsStep(d.xu, e.xu) && AbsStep(d.yu, e.yu) && AbsStep(d.zu, e.zu)
    ensures CubeDistance(Cube(0, 0, 0), Sub(d, e)) == CubeDistance(Cube(0, 0, 0), d) - 1
  {
    AbsSumStep(d, e);
    PlaneNorm(d);
    PlaneNorm(Sub(d, e));
  }

  lemma AbsSumStep(d: Cube, e: Cube)
    requires AbsStep(d.xu, e.xu) && AbsStep(d.yu, e.yu) && AbsStep(d.zu, e.zu)
    ensures var f := Sub(d, e);
      Abs(f.xu) + Abs(f.yu) + Abs(f.zu) == Abs(d.xu) + Abs(d.yu) + Abs(d.zu) - (Abs(e.xu) + Abs(e.yu) + Abs(e.zu))
  {
  }

  /** Moving x by the unit (or zero) step s toward zero lowers |x| by |s|. */
  predicate AbsStep(x: int, s: int) {
    -1 <= s <= 1 && (s == 1 ==> x > 0) && (s == -1 ==> x < 0) && Abs(x - s) == Abs(x) - Abs(s)
  }

  /** On the plane, the hex length is half the sum of the absolute
      coordinates. */
  lemma PlaneNorm(d: Cube)
    requires OnPlane(d)
    ensures 2 * CubeDistance(Cube(0, 0, 0), d) == Abs(d.xu) + Abs(d.yu) + Abs(d.zu)
  {
  }

  /** One sixth of a turn in cube space. */
  function SixthTurn(d: Cube): Cube { Cube(-d.zu, -d.xu, -d.yu) }

  function SixthTurns(d: Cube, n: nat): Cube
    decreases n
  {
    if n == 0 then d else SixthTurn(SixthTurns(d, n - 1))
  }

  function Add(a: Cube, b: Cube): Cube { Cube(a.xu + b.xu, a.yu + b.yu, a.zu + b.zu) }

  function Sub(a: Cube, b: Cube): Cube { Cube(a.xu - b.xu, a.yu - b.yu, a.zu - b.zu) }

  /** c turned `rotations` sixths of a turn about center, in cube space;
      a negative count runs no turn at all, as `range(rotations)` is then
      empty. */
  function RotatedCell(center: Cell, c: Cell, rotations: int): Cell {
    var u0 := OffToCube(center);
    var d := SixthTurns(Sub(OffToCube(c), u0), if rotations > 0 then rotations else 0);
    CubeToOff(Add(d, u0))
  }

  function Rotated(center: Cell, coordinates: seq<Cell>, rotations: int): seq<Cell> {
    if coordinates == [center] || rotations % 6 == 0 then coordinates
    else seq(|coordinates|, i requires 0 <= i < |coordinates| => RotatedCell(center, coordinates[i], rotations))
  }

  /** FHexGrid.rotate: turns every cell `rotations` sixths about center. */
  method Rotate(center: Cell, coordinates: seq<Cell>, rotations: int) returns (result: seq<Cell>)
    ensures result == Rotated(center, coordinates, rotations)
  {
    if coordinates == [center] || rotations % 6 == 0 {
      return coordinates;
    }
    result := [];
    for i := 0 to |coordinates|
      invariant RotatedPrefix(center, coordinates, rotations, result, i)
    {
      var c := TurnCell(center, coordinates[i], rotations);
      RotatedPrefixGrows(center, coordinates, rotations, result, i, c);
      result := result + [c];
    }
    RotatedPrefixWhole(center, coordinates, rotations, result);
  }

  /** The body of the loop in FHexGrid.rotate for one cell: to cube
      coordinates relative to the centre, `rotations` sixth turns, and
      back. */
  method TurnCell(center: Cell, c: Cell, rotations: int) returns (r: Cell)
    ensures r == RotatedCell(center, c, rotations)
  {
    var u0, u := OffToCube(center), OffToCube(c);
    var dxu, dyu, dzu := u.xu - u0.xu, u.yu - u0.yu, u.zu - u0.zu;
    var t := 0;
    while t < rotations
      invariant 0 <= t <= Max(rotations, 0)
      invariant Cube(dxu, dyu, dzu) == SixthTurns(Sub(u, u0), t)
    {
      dxu, dyu, dzu := -dzu, -dxu, -dyu;
      t := t + 1;
    }
    r := CubeToOff(Cube(dxu + u0.xu, dyu + u0.yu, dzu + u0.zu));
  }

  /** The first i cells of the coordinates have been turned. */
  predicate RotatedPrefix(center: Cell, coordinates: seq<Cell>, rotations: int, result: seq<Cell>, i: int) {
    |result| == i && i <= |coordinates| &&
    forall j :: 0 <= j < i ==> result[j] == RotatedCell(center, coordinates[j], rotations)
  }

  lemma RotatedPrefixGrows(center: Cell, coordinates: seq<Cell>, rotations: int, result: seq<Cell>, i: int, c: Cell)
    requires RotatedPrefix(center, coordinates, rotations, result, i) && i < |coordinates|
    requires c == RotatedCell(center, coordinates[i], rotations)
    ensures RotatedPrefix(center, coordinates, rotations, result + [c], i + 1)
  {
  }

  lemma RotatedPrefixWhole(center: Cell, coordinates: seq<Cell>, rotations: int, result: seq<Cell>)
    requires !(coordinates == [center] || rotations % 6 == 0)
    requires RotatedPrefix(center, coordinates, rotations, result, |coordinates|)
    ensures result == Rotated(center, coordinates, rotations)
  {
    RotatedAt(center, coordinates, rotations);
  }

  /** Outside the two short cuts, cell i of the result is cell i turned. */
  lemma RotatedAt(center: Cell, coordinates: seq<Cell>, rotations: int)
    requires !(coordinates == [center] || rotations % 6 == 0)
    ensures var r := Rotated(center, coordinates, rotations);
      |r| == |coordinates| && forall i :: 0 <= i < |r| ==> r[i] == RotatedCell(center, coordinates[i], rotations)
  {
  }

  lemma {:induction false} SixthTurnsCompose(d: Cube, a: nat, b: nat)
    ensures SixthTurns(SixthTurns(d, a), b) == SixthTurns(d, a + b)
    decreases b
  {
    if b > 0 {
      SixthTurnsCompose(d, a, b - 1);
    }
  }

  lemma SixTurnsAreWhole(d: Cube)
    ensures SixthTurns(d, 6) == d
  {
    assert SixthTurns(d, 1) == Cube(-d.zu, -d.xu, -d.yu);
    assert SixthTurns(d, 2) == Cube(d.yu, d.zu, d.xu);
    assert SixthTurns(d, 3) == Cube(-d.xu, -d.yu, -d.zu);
    assert SixthTurns(d, 4) == Cube(d.zu, d.xu, d.yu);
    assert SixthTurns(d, 5) == Cube(-d.yu, -d.zu, -d.xu);
  }

  lemma SixMore(d: Cube, n: nat)
    ensures SixthTurns(d, n + 6) == SixthTurns(d, n)
  {
    SixthTurnsCompose(d, n, 6);
    SixTurnsAreWhole(SixthTurns(d, n));
  }

  lemma ModSixStep(n: int)
    requires n >= 6
    ensures (n - 6) % 6 == n % 6
  {
  }

  /** Sixth turns have period 6. */
  lemma {:induction false} SixthTurnsPeriodic(d: Cube, n: nat)
    ensures SixthTurns(d, n) == SixthTurns(d, n % 6)
    decreases n
  {
    if n >= 6 {
      var p: nat := n - 6;
      SixthTurnsPeriodic(d, p);
      SixMore(d, p);
      ModSixStep(n);
    }
  }

  /** A turn keeps a vector on the plane and keeps its hex length. */
  lemma {:induction false} SixthTurnsKeepNorm(d: Cube, n: nat)
    ensures OnPlane(SixthTurns(d, n)) == OnPlane(d)
    ensures CubeDistance(Cube(0, 0, 0), SixthTurns(d, n)) == CubeDistance(Cube(0, 0, 0), d)
    decreases n
  {
    if n > 0 {
      SixthTurnsKeepNorm(d, n - 1);
      SixthTurnKeepsNorm(SixthTurns(d, n - 1));
    }
  }

  lemma SixthTurnKeepsNorm(d: Cube)
    ensures OnPlane(SixthTurn(d)) == OnPlane(d)
    ensures CubeDistance(Cube(0, 0, 0), SixthTurn(d)) == CubeDistance(Cube(0, 0, 0), d)
  {
    var t := SixthTurn(d);
    assert Abs(t.xu) == Abs(d.zu) && Abs(t.yu) == Abs(d.xu) && Abs(t.zu) == Abs(d.yu);
  }

  /** The offset-to-cube image of a rotated cell is the turned cube
      vector added back to the centre. */
  lemma RotatedCellCube(center: Cell, c: Cell, rotations: int)
    ensures OffToCube(RotatedCell(center, c, rotations))
         == Add(SixthTurns(Sub(OffToCube(c), OffToCube(center)), if rotations > 0 then rotations else 0), OffToCube(center))
  {
    var u0 := OffToCube(center);
    var d := Sub(OffToCube(c), u0);
    var n := if rotations > 0 then rotations else 0;
    SixthTurnsKeepNorm(d, n);
  }

  lemma RotatedCellKeepsDistance(center: Cell, c: Cell, rotations: int)
    ensures DistanceOff(center, RotatedCell(center, c, rotations)) == DistanceOff(center, c)
  {
    var u0, n := OffToCube(center), if rotations > 0 then rotations else 0;
    var d := Sub(OffToCube(c), u0);
    var t := SixthTurns(d, n);
    SixthTurnsKeepNorm(d, n);
    RotatedCellCube(center, c, rotations);
    DistanceIsLength(u0, Add(t, u0));
    assert Sub(Add(t, u0), u0) == t;
    DistanceIsLength(u0, OffToCube(c));
  }

  /** Rotation keeps the number of cells and each cell's hex distance to
      the centre. */
  lemma RotatedKeepsDistances(center: Cell, coordinates: seq<Cell>, rotations: int)
    ensures var r := Rotated(center, coordinates, rotations);
      |r| == |coordinates| &&
      forall i :: 0 <= i < |r| ==> DistanceOff(center, r[i]) == DistanceOff(center, coordinates[i])
  {
    var r := Rotated(center, coordinates, rotations);
    forall i | 0 <= i < |r| ensures DistanceOff(center, r[i]) == DistanceOff(center, coordinates[i]) {
      RotatedCellKeepsDistance(center, coordinates[i], rotations);
    }
  }

  /** A multiple of six turns, a negative count or the centre alone leave
      the coordinates as they are. */
  lemma RotatedIdentity(center: Cell, coordinates: seq<Cell>, rotations: int)
    requires rotations % 6 == 0 || rotations < 0 || coordinates == [center]
    ensures Rotated(center, coordinates, rotations) == coordinates
  {
    if !(coordinates == [center] || rotations % 6 == 0) {
      RotatedAt(center, coordinates, rotations);
      var r := Rotated(center, coordinates, rotations);
      forall i | 0 <= i < |r| ensures r[i] == coordinates[i] {
        RotatedCellNoTurn(center, coordinates[i], rotations);
      }
    }
  }

  /** A count that is not positive runs no turn. */
  lemma RotatedCellNoTurn(center: Cell, c: Cell, rotations: int)
    requires rotations <= 0
    ensures RotatedCell(center, c, rotations) == c
  {
    var u0 := OffToCube(center);
    assert Add(Sub(OffToCube(c), u0), u0) == OffToCube(c);
    OffCubeRoundTrip(c);
  }

  /** A vector of hex length zero is the zero vector. */
  lemma ZeroNorm(d: Cube)
    requires CubeDistance(Cube(0, 0, 0), d) == 0
    ensures d == Cube(0, 0, 0)
  {
  }

  lemma SubZero(a: Cube, b: Cube)
    requires Sub(a, b) == Cube(0, 0, 0)
    ensures a == b
  {
  }

  /** Only the centre itself lands on the centre. */
  lemma RotatedCellFixesOnlyCenter(center: Cell, c: Cell, k: int)
    ensures RotatedCell(center, c, k) == center ==> c == center
  {
    var u0 := OffToCube(center);
    var d := Sub(OffToCube(c), u0);
    var n := if k > 0 then k else 0;
    var r := RotatedCell(center, c, k);
    if r == center {
      var t := SixthTurns(d, n);
      RotatedCellCube(center, c, k);
      assert Add(t, u0) == u0;
      assert t == Cube(0, 0, 0);
      SixthTurnsKeepNorm(d, n);
      ZeroNorm(d);
      SubZero(OffToCube(c), u0);
      OffToCubeInjective(c, center);
    }
  }

  lemma RotatedCellUndo(center: Cell, c: Cell, k: nat, m: nat)
    requires (k + m) % 6 == 0
    ensures RotatedCell(center, RotatedCell(center, c, k), m) == c
  {
    var u0 := OffToCube(center);
    var d := Sub(OffToCube(c), u0);
    var r := RotatedCell(center, c, k);
    RotatedCellCube(center, c, k);
    assert Sub(OffToCube(r), u0) == SixthTurns(d, k);
    SixthTurnsCompose(d, k, m);
    SixthTurnsPeriodic(d, k + m);
    assert Add(SixthTurns(d, k + m), u0) == OffToCube(c);
    OffCubeRoundTrip(c);
  }

  /** Turning k times and then m times, k + m a multiple of 6, gives back
      the original coordinates. */
  lemma RotatedUndo(center: Cell, coordinates: seq<Cell>, k: nat, m: nat)
    requires (k + m) % 6 == 0
    ensures Rotated(center, Rotated(center, coordinates, k), m) == coordinates
  {
    ModSixComplement(k, m);
    if k % 6 != 0 && coordinates != [center] {
      RotatedAt(center, coordinates, k);
      var r := Rotated(center, coordinates, k);
      if |coordinates| == 1 {
        RotatedCellFixesOnlyCenter(center, coordinates[0], k);
      }
      assert r != [center];
      RotatedAt(center, r, m);
      var r2 := Rotated(center, r, m);
      forall i | 0 <= i < |coordinates| ensures r2[i] == coordinates[i] {
        RotatedCellUndo(center, coordinates[i], k, m);
      }
    }
  }

  lemma ModSixComplement(k: int, m: int)
    requires (k + m) % 6 == 0
    ensures k % 6 == 0 <==> m % 6 == 0
  {
    var a, b := k / 6, m / 6;
    assert k == 6 * a + k % 6 && m == 6 * b + m % 6;
    assert k + m == 6 * (a + b) + (k % 6 + m % 6);
  }

  /** A neighbour of the centre stays a neighbour when turned. */
  lemma RotatedNeighbour(center: Cell, n: Cell, rotations: int)
    requires n in Neighbours(center)
    ensures RotatedCell(center, n, rotations) in Neighbours(center)
  {
    NeighboursAreAdjacent(center);
    RotatedCellKeepsDistance(center, n, rotations);
  }
}
