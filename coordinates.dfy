/** Integer cell coordinates, error values and small sequence helpers
    shared by both grid topologies and by the pencils. */
module Coordinates {

  /** An (x, y) cell in offset coordinates. */
  type Cell = (int, int)

  /** The failures the library reports. BaseGrid and BasePencil raise
      ValueError, TypeError or a bare Exception; each is named here by
      its cause. */
  datatype Error =
    | InvalidDimension   // a width, height or pencil size that is not > 0
    | InvalidRadius      // a negative zone radius
    | EmptyInput         // a bounding rectangle of no coordinates
    | AlreadyStarted     // a pencil started while it holds a selection
    | NotStarted         // a pencil updated before it was started

  datatype Option<+T> = None | Some(value: T)

  datatype Result<+T> = Success(value: T) | Failure(error: Error)

  datatype Outcome = Pass | Fail(error: Error)

  function Abs(n: int): nat { if n < 0 then -n else n }

  function Min(a: int, b: int): int { if a <= b then a else b }

  function Max(a: int, b: int): int { if a <= b then b else a }

  /** Chebyshev (king-move) distance between two cells. */
  function Chebyshev(a: Cell, b: Cell): nat {
    var dx, dy := Abs(a.0 - b.0), Abs(a.1 - b.1);
    if dx <= dy then dy else dx
  }

  predicate Distinct<T(==)>(s: seq<T>) {
    forall i, j :: 0 <= i < j < |s| ==> s[i] != s[j]
  }

  /** The elements of a sequence, as a set. */
  function Elements<T>(s: seq<T>): set<T> { set x | x in s }

  /** s in the opposite order (Python's list.reverse()). */
  function Reversed<T>(s: seq<T>): (r: seq<T>)
    ensures |r| == |s|
    ensures forall i :: 0 <= i < |s| ==> r[i] == s[|s| - 1 - i]
  {
    if s == [] then [] else Reversed(s[1..]) + [s[0]]
  }

  lemma ReversedTwice<T>(s: seq<T>)
    ensures Reversed(Reversed(s)) == s
  {
    var r := Reversed(Reversed(s));
    assert forall i :: 0 <= i < |s| ==> r[i] == s[i];
  }

  lemma ReversedElements<T>(s: seq<T>, x: T)
    ensures x in Reversed(s) <==> x in s
  {
    var r := Reversed(s);
    if x in r {
      var j :| 0 <= j < |r| && r[j] == x;
      assert s[|s| - 1 - j] == x;
    }
    if x in s {
      var j :| 0 <= j < |s| && s[j] == x;
      assert r[|s| - 1 - j] == x;
    }
  }

  /** The Chebyshev distance is symmetric and zero exactly on equal cells. */
  lemma ChebyshevMetric(a: Cell, b: Cell, c: Cell)
    ensures Chebyshev(a, b) == Chebyshev(b, a)
    ensures Chebyshev(a, b) == 0 <==> a == b
    ensures Chebyshev(a, c) <= Chebyshev(a, b) + Chebyshev(b, c)
  {
  }
}
