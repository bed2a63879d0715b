/** BaseGrid.rectangle, BaseGrid._bounding_rect and
    BaseGrid.hollow_rectangle: the cells of a box, the box around some
    cells, and the four sides of a box. */
module Rectangles {
  import opened Coordinates

  /** The number of integers in lo..hi (Python's len(range(lo, hi + 1))). */
  function Count(lo: int, hi: int): nat {
    if hi < lo then 0 else hi - lo + 1
  }

  /** [(x, y) for y in range(ya, yb + 1)]: the segment of column x from
      ya to yb, bottom up, each cell once. */
  function Column(x: int, ya: int, yb: int): (r: seq<Cell>)
    ensures |r| == Count(ya, yb)
    ensures forall i :: 0 <= i < |r| ==> r[i] == (x, ya + i)
    ensures Distinct(r)
    ensures forall c :: c in r <==> c.0 == x && ya <= c.1 <= yb
  {
    var r := seq(Count(ya, yb), i => (x, ya + i));
    ColumnCovered(x, ya, yb, r);
    r
  }

  /** [(x, y) for x in range(xa, xb + 1)]: the segment of row y from xa
      to xb, left to right, each cell once. */
  function Row(y: int, xa: int, xb: int): (r: seq<Cell>)
    ensures |r| == Count(xa, xb)
    ensures forall i :: 0 <= i < |r| ==> r[i] == (xa + i, y)
    ensures Distinct(r)
    ensures forall c :: c in r <==> c.1 == y && xa <= c.0 <= xb
  {
    var r := seq(Count(xa, xb), i => (xa + i, y));
    RowCovered(y, xa, xb, r);
    r
  }

  /** A column counted up from ya reaches every cell up to yb. */
  lemma ColumnCovered(x: int, ya: int, yb: int, r: seq<Cell>)
    requires |r| == Count(ya, yb) && forall i :: 0 <= i < |r| ==> r[i] == (x, ya + i)
    ensures forall c: Cell :: c.0 == x && ya <= c.1 <= yb ==> c in r
  {
    forall c: Cell | c.0 == x && ya <= c.1 <= yb ensures c in r {
      assert r[c.1 - ya] == c;
    }
  }

  /** A row counted up from xa reaches every cell up to xb. */
  lemma RowCovered(y: int, xa: int, xb: int, r: seq<Cell>)
    requires |r| == Count(xa, xb) && forall i :: 0 <= i < |r| ==> r[i] == (xa + i, y)
    ensures forall c: Cell :: c.1 == y && xa <= c.0 <= xb ==> c in r
  {
    forall c: Cell | c.1 == y && xa <= c.0 <= xb ensures c in r {
      assert r[c.0 - xa] == c;
    }
  }

  /** The cells of the box xa..xb by ya..yb, column after column. */
  function Box(xa: int, xb: int, ya: int, yb: int): seq<Cell>
    decreases xb - xa + 1
  {
    if xb < xa then [] else Column(xa, ya, yb) + Box(xa + 1, xb, ya, yb)
  }

  /** A box holds every cell with its coordinates in range, each exactly
      once, and nothing else. */
  lemma {:induction false} BoxCells(xa: int, xb: int, ya: int, yb: int)
    ensures |Box(xa, xb, ya, yb)| == Count(xa, xb) * Count(ya, yb)
    ensures Distinct(Box(xa, xb, ya, yb))
    ensures forall c :: c in Box(xa, xb, ya, yb) <==> xa <= c.0 <= xb && ya <= c.1 <= yb
    decreases xb - xa + 1
  {
    if xa <= xb {
      var col, rest := Column(xa, ya, yb), Box(xa + 1, xb, ya, yb);
      BoxCells(xa + 1, xb, ya, yb);
      assert Count(xa, xb) == Count(xa + 1, xb) + 1;
      assert |col + rest| == Count(ya, yb) + Count(xa + 1, xb) * Count(ya, yb);
      forall i, j | 0 <= i < j < |col + rest| ensures (col + rest)[i] != (col + rest)[j] {
        if j < |col| {
        } else if i < |col| {
          assert (col + rest)[i] in col && (col + rest)[j] in rest;
        } else {
          assert (col + rest)[i] == rest[i - |col|] && (col + rest)[j] == rest[j - |col|];
        }
      }
    }
  }

  /** BaseGrid.rectangle: the box spanned by two opposite corners. */
  function Rectangle(x1: int, y1: int, x2: int, y2: int): seq<Cell> {
    Box(Min(x1, x2), Max(x1, x2), Min(y1, y2), Max(y1, y2))
  }

  /** (|x2-x1|+1)(|y2-y1|+1) distinct cells, the cells of the min/max box,
      whichever pair of opposite corners is given. */
  lemma RectangleCells(x1: int, y1: int, x2: int, y2: int)
    ensures |Rectangle(x1, y1, x2, y2)| == (Abs(x2 - x1) + 1) * (Abs(y2 - y1) + 1)
    ensures Distinct(Rectangle(x1, y1, x2, y2))
    ensures forall c :: c in Rectangle(x1, y1, x2, y2) <==>
      Min(x1, x2) <= c.0 <= Max(x1, x2) && Min(y1, y2) <= c.1 <= Max(y1, y2)
    ensures Rectangle(x2, y2, x1, y1) == Rectangle(x1, y1, x2, y2)
    ensures Rectangle(x1, y2, x2, y1) == Rectangle(x1, y1, x2, y2)
  {
    BoxCells(Min(x1, x2), Max(x1, x2), Min(y1, y2), Max(y1, y2));
  }

  /** The smallest value of a non-empty sequence. */
  function Least(s: seq<int>): (m: int)
    requires s != []
    ensures m in s && forall v :: v in s ==> m <= v
  {
    if |s| == 1 then s[0]
    else
      var m := Least(s[1..]);
      assert forall v :: v in s ==> v == s[0] || v in s[1..];
      Min(s[0], m)
  }

  /** The largest value of a non-empty sequence. */
  function Greatest(s: seq<int>): (m: int)
    requires s != []
    ensures m in s && forall v :: v in s ==> v <= m
  {
    if |s| == 1 then s[0]
    else
      var m := Greatest(s[1..]);
      assert forall v :: v in s ==> v == s[0] || v in s[1..];
      Max(s[0], m)
  }

  function Xs(cells: seq<Cell>): (r: seq<int>)
    ensures |r| == |cells| && forall i :: 0 <= i < |cells| ==> r[i] == cells[i].0
  {
    seq(|cells|, i requires 0 <= i < |cells| => cells[i].0)
  }

  function Ys(cells: seq<Cell>): (r: seq<int>)
    ensures |r| == |cells| && forall i :: 0 <= i < |cells| ==> r[i] == cells[i].1
  {
    seq(|cells|, i requires 0 <= i < |cells| => cells[i].1)
  }

  /** (xmin, ymin, xmax, ymax) of some cells, the order _bounding_rect's
      documentation promises; no cell at all is an error (unpacking the
      empty zip fails). */
  function BoundingRect(cells: seq<Cell>): (r: Result<(int, int, int, int)>)
    ensures r.Failure? <==> cells == []
    ensures r.Success? ==>
      var (xmin, ymin, xmax, ymax) := r.value;
      (forall c :: c in cells ==> xmin <= c.0 <= xmax && ymin <= c.1 <= ymax) &&
      (exists c :: c in cells && c.0 == xmin) && (exists c :: c in cells && c.0 == xmax) &&
      (exists c :: c in cells && c.1 == ymin) && (exists c :: c in cells && c.1 == ymax)
  {
    if cells == [] then Failure(EmptyInput)
    else
      var xs, ys := Xs(cells), Ys(cells);
      var r := (Least(xs), Least(ys), Greatest(xs), Greatest(ys));
      BoundsAttained(cells, r);
      Success(r)
  }

  lemma BoundsAttained(cells: seq<Cell>, r: (int, int, int, int))
    requires cells != []
    requires r == (Least(Xs(cells)), Least(Ys(cells)), Greatest(Xs(cells)), Greatest(Ys(cells)))
    ensures var (xmin, ymin, xmax, ymax) := r;
      (forall c :: c in cells ==> xmin <= c.0 <= xmax && ymin <= c.1 <= ymax) &&
      (exists c :: c in cells && c.0 == xmin) && (exists c :: c in cells && c.0 == xmax) &&
      (exists c :: c in cells && c.1 == ymin) && (exists c :: c in cells && c.1 == ymax)
  {
    var xs, ys := Xs(cells), Ys(cells);
    forall c | c in cells ensures r.0 <= c.0 <= r.2 && r.1 <= c.1 <= r.3 {
      var i :| 0 <= i < |cells| && cells[i] == c;
      assert xs[i] == c.0 && ys[i] == c.1;
      assert xs[i] in xs && ys[i] in ys;
    }
    var i0 :| 0 <= i0 < |xs| && xs[i0] == r.0;
    var i1 :| 0 <= i1 < |ys| && ys[i1] == r.1;
    var i2 :| 0 <= i2 < |xs| && xs[i2] == r.2;
    var i3 :| 0 <= i3 < |ys| && ys[i3] == r.3;
    assert cells[i0] in cells && cells[i1] in cells && cells[i2] in cells && cells[i3] in cells;
  }

  /** The bounding rectangle of two corners is their min/max box. */
  lemma BoundingRectOfCorners(x1: int, y1: int, x2: int, y2: int)
    ensures BoundingRect([(x1, y1), (x2, y2)]) == Success((Min(x1, x2), Min(y1, y2), Max(x1, x2), Max(y1, y2)))
  {
    var cells := [(x1, y1), (x2, y2)];
    assert Xs(cells) == [x1, x2] && Ys(cells) == [y1, y2];
    assert Xs(cells)[1..] == [x2] && Ys(cells)[1..] == [y2];
  }

  /** _bounding_rect as its last line is written: (xmin, xmax, ymin, ymax). */
  function BoundingRectAsWritten(cells: seq<Cell>): (r: Result<(int, int, int, int)>)
    ensures r.Failure? <==> cells == []
    ensures r.Success? ==>
      BoundingRect(cells).Success? &&
      var (xmin, ymin, xmax, ymax) := BoundingRect(cells).value;
      r.value == (xmin, xmax, ymin, ymax)
  {
    if cells == [] then Failure(EmptyInput)
    else
      var xs, ys := Xs(cells), Ys(cells);
      Success((Least(xs), Greatest(xs), Least(ys), Greatest(ys)))
  }

  /** The four sides of the box given as (xmin, ymin, xmax, ymax), in the
      order hollow_rectangle concatenates them: bottom row, top row, left
      column, right column. */
  function Sides(bounds: (int, int, int, int)): seq<Cell> {
    var (xmin, ymin, xmax, ymax) := bounds;
    Row(ymin, xmin, xmax) + Row(ymax, xmin, xmax) + Column(xmin, ymin, ymax) + Column(xmax, ymin, ymax)
  }

  lemma SidesCells(bounds: (int, int, int, int))
    ensures var (xmin, ymin, xmax, ymax) := bounds;
      |Sides(bounds)| == 2 * Count(xmin, xmax) + 2 * Count(ymin, ymax) &&
      forall c :: c in Sides(bounds) <==>
        ((c.1 == ymin || c.1 == ymax) && xmin <= c.0 <= xmax) ||
        ((c.0 == xmin || c.0 == xmax) && ymin <= c.1 <= ymax)
  {
  }

  /** BaseGrid.hollow_rectangle, with the bounds in their documented
      order. */
  function HollowRectangle(x1: int, y1: int, x2: int, y2: int): seq<Cell> {
    Sides(BoundingRect([(x1, y1), (x2, y2)]).value)
  }

  /** hollow_rectangle as written: the as-written bounds are unpacked as if
      they were (xmin, ymin, xmax, ymax). */
  function HollowRectangleAsWritten(x1: int, y1: int, x2: int, y2: int): seq<Cell> {
    Sides(BoundingRectAsWritten([(x1, y1), (x2, y2)]).value)
  }

  /** Every cell of the hollow rectangle lies in the rectangle on one of
      its four sides, and every such cell is there; the list holds
      2(|x2-x1|+1) + 2(|y2-y1|+1) entries, the corners twice. */
  lemma HollowRectangleCells(x1: int, y1: int, x2: int, y2: int)
    ensures |HollowRectangle(x1, y1, x2, y2)| == 2 * (Abs(x2 - x1) + 1) + 2 * (Abs(y2 - y1) + 1)
    ensures forall c :: c in HollowRectangle(x1, y1, x2, y2) <==>
      c in Rectangle(x1, y1, x2, y2) &&
      (c.0 == Min(x1, x2) || c.0 == Max(x1, x2) || c.1 == Min(y1, y2) || c.1 == Max(y1, y2))
  {
    BoundingRectOfCorners(x1, y1, x2, y2);
    SidesCells((Min(x1, x2), Min(y1, y2), Max(x1, x2), Max(y1, y2)));
    RectangleCells(x1, y1, x2, y2);
  }

  /** All four corners appear. */
  lemma HollowRectangleCorners(x1: int, y1: int, x2: int, y2: int)
    ensures (x1, y1) in HollowRectangle(x1, y1, x2, y2) && (x2, y2) in HollowRectangle(x1, y1, x2, y2)
    ensures (x1, y2) in HollowRectangle(x1, y1, x2, y2) && (x2, y1) in HollowRectangle(x1, y1, x2, y2)
  {
    HollowRectangleCells(x1, y1, x2, y2);
    RectangleCells(x1, y1, x2, y2);
  }

  /** Naming the opposite corners in the other order changes nothing. */
  lemma HollowRectangleSymmetric(x1: int, y1: int, x2: int, y2: int)
    ensures HollowRectangle(x2, y2, x1, y1) == HollowRectangle(x1, y1, x2, y2)
  {
    BoundingRectOfCorners(x1, y1, x2, y2);
    BoundingRectOfCorners(x2, y2, x1, y1);
  }

  /** With the bounds unpacked in the wrong order, the corner (2, 5) of
      the box from (0, 0) to (2, 5) is missing. */
  lemma HollowRectangleAsWrittenMissesCorner()
    ensures (2, 5) !in HollowRectangleAsWritten(0, 0, 2, 5)
    ensures (2, 5) in HollowRectangle(0, 0, 2, 5)
  {
    var cells: seq<Cell> := [(0, 0), (2, 5)];
    assert Xs(cells) == [0, 2] && Ys(cells) == [0, 5];
    assert Xs(cells)[1..] == [2] && Ys(cells)[1..] == [5];
    assert BoundingRectAsWritten(cells).value == (0, 2, 0, 5);
    SidesCells((0, 2, 0, 5));
    HollowRectangleCorners(0, 0, 2, 5);
  }
}
