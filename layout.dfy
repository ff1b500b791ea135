/**
 * Seat enumeration of `hemicyclePoints`: an outer loop over the columns of the
 * half circle (one angle each) and an inner loop over the rows (one radius
 * each) advance a running seat index, and every index outside the reserved set
 * yields a seat. A seat is kept in polar form: its column and row, its radius,
 * and its angle measured in units of pi radians, so that the affine radius and
 * angle arithmetic of the loops is exact and no trigonometry is involved.
 */
module Layout {

  /** One seat in polar form; `index` is the running seat index of the loops. */
  datatype Seat = Seat(index: nat, column: nat, row: nat, radius: real, angle: real)

  /**
   * The parameters the loops read: `rowCount` radii per column, `rowCircles`
   * columns, the reserved indices, and the start and step of radius and angle.
   */
  datatype Geometry = Geometry(
    rowCount: nat,
    rowCircles: nat,
    skipped: set<nat>,
    radiusStart: real,
    radiusStep: real,
    angleStart: real,
    angleStep: real)

  /** The number of indices the loops visit. */
  function Capacity(g: Geometry): nat {
    g.rowCount * g.rowCircles
  }

  /** Radius of row k: the start radius plus k steps, so rows go from inside to outside. */
  function RowRadius(g: Geometry, row: nat): real {
    g.radiusStart + row as real * g.radiusStep
  }

  /** Angle of column c: the start angle minus c steps, so columns go from left to right. */
  function ColumnAngle(g: Geometry, column: nat): real {
    g.angleStart - column as real * g.angleStep
  }

  lemma NextRow(g: Geometry, row: nat)
    ensures RowRadius(g, 0) == g.radiusStart
    ensures RowRadius(g, row + 1) == RowRadius(g, row) + g.radiusStep
  {
  }

  lemma NextColumn(g: Geometry, column: nat)
    ensures ColumnAngle(g, 0) == g.angleStart
    ensures ColumnAngle(g, column + 1) == ColumnAngle(g, column) - g.angleStep
  {
  }

  /** The seat that index i denotes: column i div rowCount, row i mod rowCount. */
  function SeatAt(g: Geometry, i: nat): (s: Seat)
    requires g.rowCount > 0
    ensures s.index == i && s.row < g.rowCount
    ensures s.column * g.rowCount + s.row == i
    ensures s.radius == RowRadius(g, s.row) && s.angle == ColumnAngle(g, s.column)
  {
    var column := i / g.rowCount;
    var row := i % g.rowCount;
    Seat(i, column, row, RowRadius(g, row), ColumnAngle(g, column))
  }

  /**
   * The seats the first n visited indices yield, reserved indices left out:
   * at most one seat per visited index.
   */
  function Layout(g: Geometry, n: nat): (seats: seq<Seat>)
    requires n == 0 || g.rowCount > 0
    ensures |seats| <= n
  {
    if n == 0 then []
    else Layout(g, n - 1) + (if n - 1 in g.skipped then [] else [SeatAt(g, n - 1)])
  }

  /** Index column * rowCount + row lies in that column and that row. */
  lemma DivModUnique(column: nat, row: nat, rowCount: nat)
    requires row < rowCount
    ensures (column * rowCount + row) / rowCount == column
    ensures (column * rowCount + row) % rowCount == row
  {
    var i := column * rowCount + row;
    var q, r := i / rowCount, i % rowCount;
    assert q * rowCount + r == column * rowCount + row;
    if q < column {
      MulMonotone(q + 1, column, rowCount);
      assert false;
    } else if q > column {
      MulMonotone(column + 1, q, rowCount);
      assert false;
    }
  }

  lemma MulMonotone(a: nat, b: nat, k: nat)
    requires a <= b
    ensures a * k <= b * k
  {
    assert b * k == a * k + (b - a) * k;
  }

  /** One more visited index appends the seat at that column and row unless it is reserved. */
  lemma LayoutStep(g: Geometry, i: nat, column: nat, row: nat, radius: real, angle: real)
    requires row < g.rowCount && i == column * g.rowCount + row
    requires radius == RowRadius(g, row) && angle == ColumnAngle(g, column)
    ensures Layout(g, i + 1) == Layout(g, i) + (if i in g.skipped then [] else [Seat(i, column, row, radius, angle)])
  {
    DivModUnique(column, row, g.rowCount);
    assert SeatAt(g, i) == Seat(i, column, row, radius, angle);
  }

  lemma MulSucc(a: nat, k: nat)
    ensures (a + 1) * k == a * k + k
  {
  }

  /**
   * The inner loop of `hemicyclePoints` over the rows of one column: starting
   * at the column's first index, it appends the seats of that column.
   */
  method EnumerateColumn(g: Geometry, column: nat, radian: real, start: nat, seats0: seq<Seat>) returns (seats: seq<Seat>)
    requires g.rowCount > 0 && start == column * g.rowCount && radian == ColumnAngle(g, column)
    requires seats0 == Layout(g, start)
    ensures seats == Layout(g, start + g.rowCount)
  {
    seats := seats0;
    var i := start;
    var radius := g.radiusStart;
    NextRow(g, 0);
    for row := 0 to g.rowCount
      invariant i == column * g.rowCount + row
      invariant radius == RowRadius(g, row)
      invariant seats == Layout(g, i)
    {
      LayoutStep(g, i, column, row, radius, radian);
      if i !in g.skipped {
        seats := seats + [Seat(i, column, row, radius, radian)];
      }
      i := i + 1;
      NextRow(g, row);
      radius := radius + g.radiusStep;
    }
  }

  /**
   * `hemicyclePoints`: the nested loops over columns and rows. `visited` is the
   * running index after both loops; `seats` are the points appended.
   */
  method Enumerate(g: Geometry) returns (seats: seq<Seat>, visited: nat)
    ensures visited == Capacity(g)
    ensures seats == Layout(g, Capacity(g))
  {
    seats := [];
    var radian := g.angleStart;
    NextColumn(g, 0);
    var i := 0;
    for column := 0 to g.rowCircles
      invariant i == column * g.rowCount && (g.rowCount == 0 ==> i == 0)
      invariant radian == ColumnAngle(g, column)
      invariant seats == Layout(g, i)
    {
      if g.rowCount > 0 {
        seats := EnumerateColumn(g, column, radian, i, seats);
      }
      i := i + g.rowCount;
      MulSucc(column, g.rowCount);
      NextColumn(g, column);
      radian := radian - g.angleStep;
    }
    visited := i;
  }

  /** The reserved indices among the first n. */
  function SkippedBelow(g: Geometry, n: nat): set<nat> {
    set i | i in g.skipped && i < n
  }

  /**
   * Every emitted seat is the seat of its own index, that index was visited
   * and is not reserved, and indices strictly increase along the list.
   */
  lemma {:induction false} LayoutSound(g: Geometry, n: nat)
    requires n == 0 || g.rowCount > 0
    ensures forall k :: 0 <= k < |Layout(g, n)| ==>
      var s := Layout(g, n)[k]; s.index < n && s.index !in g.skipped && s == SeatAt(g, s.index)
    ensures forall j, k :: 0 <= j < k < |Layout(g, n)| ==> Layout(g, n)[j].index < Layout(g, n)[k].index
  {
    if n > 0 {
      LayoutSound(g, n - 1);
    }
  }

  /** Every visited index outside the reserved set yields a seat. */
  lemma {:induction false} LayoutComplete(g: Geometry, n: nat, i: nat)
    requires n == 0 || g.rowCount > 0
    requires i < n && i !in g.skipped
    ensures exists k :: 0 <= k < |Layout(g, n)| && Layout(g, n)[k].index == i
  {
    if i == n - 1 {
      var k := |Layout(g, n - 1)|;
      assert Layout(g, n)[k].index == i;
    } else {
      LayoutComplete(g, n - 1, i);
      var k :| 0 <= k < |Layout(g, n - 1)| && Layout(g, n - 1)[k].index == i;
      assert Layout(g, n)[k] == Layout(g, n - 1)[k];
    }
  }

  /** Exactly the visited indices that are not reserved yield a seat. */
  lemma LayoutMembership(g: Geometry, n: nat, i: nat)
    requires n == 0 || g.rowCount > 0
    ensures (exists k :: 0 <= k < |Layout(g, n)| && Layout(g, n)[k].index == i) <==> i < n && i !in g.skipped
  {
    LayoutSound(g, n);
    if i < n && i !in g.skipped {
      LayoutComplete(g, n, i);
    }
  }

  /** Each visited index either yields one seat or is one of the reserved indices. */
  lemma {:induction false} LayoutLength(g: Geometry, n: nat)
    requires n == 0 || g.rowCount > 0
    ensures |Layout(g, n)| + |SkippedBelow(g, n)| == n
  {
    if n == 0 {
      assert SkippedBelow(g, 0) == {};
    } else {
      LayoutLength(g, n - 1);
      if n - 1 in g.skipped {
        assert SkippedBelow(g, n) == SkippedBelow(g, n - 1) + {n - 1};
      } else {
        assert SkippedBelow(g, n) == SkippedBelow(g, n - 1);
      }
    }
  }
}
