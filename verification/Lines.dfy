/** `line_points`: rasterising a line, with exact division. */
module Lines {

  datatype Point = Point(x: int, y: int)

  function Abs(n: int): nat {
    if n < 0 then -n else n
  }

  function Max(a: int, b: int): int {
    if a < b then b else a
  }

  function Min(a: int, b: int): int {
    if a < b then a else b
  }

  /** `math.ceil(n / d)` for a positive divisor. */
  function CeilDiv(n: int, d: int): (c: int)
    requires d > 0
    ensures (c - 1) * d < n <= c * d
  {
    -((-n) / d)
  }

  /** How many points a line has. */
  function Length(start: Point, end: Point): (n: nat)
    ensures n > Abs(end.x - start.x) && n > Abs(end.y - start.y)
  {
    Max(Abs(end.x - start.x), Abs(end.y - start.y)) + 1
  }

  /** `math.ceil(start + i / length * extent)`. */
  function Coordinate(start: int, extent: int, i: nat, length: nat): int
    requires length > 0
  {
    start + CeilDiv(i * extent, length)
  }

  function LinePoint(start: Point, end: Point, i: nat): Point {
    var n := Length(start, end);
    Point(Coordinate(start.x, end.x - start.x, i, n), Coordinate(start.y, end.y - start.y, i, n))
  }

  /** All points of a line. */
  method LinePoints(start: Point, end: Point) returns (points: seq<Point>)
    ensures |points| == Length(start, end)
    ensures forall i :: 0 <= i < |points| ==> points[i] == LinePoint(start, end, i)
  {
    points := [];
    var xExtent, yExtent := end.x - start.x, end.y - start.y;
    var length := Max(Abs(xExtent), Abs(yExtent)) + 1;
    for i := 0 to length
      invariant |points| == i && forall j :: 0 <= j < i ==> points[j] == LinePoint(start, end, j)
    {
      points := points + [Point(Coordinate(start.x, xExtent, i, length), Coordinate(start.y, yExtent, i, length))];
    }
  }

  lemma Scale(a: int, b: int, d: nat)
    requires a <= b
    ensures a * d <= b * d
  {
  }

  lemma CeilDivAtMost(n: int, d: int, c: int)
    requires d > 0 && n <= c * d
    ensures CeilDiv(n, d) <= c
  {
    var e := CeilDiv(n, d);
    if c < e {
      Scale(c, e - 1, d);
    }
  }

  lemma CeilDivAtLeast(n: int, d: int, c: int)
    requires d > 0 && (c - 1) * d < n
    ensures c <= CeilDiv(n, d)
  {
    var e := CeilDiv(n, d);
    if e < c {
      Scale(e, c - 1, d);
    }
  }

  lemma CeilDivIs(n: int, d: int, c: int)
    requires d > 0 && (c - 1) * d < n <= c * d
    ensures CeilDiv(n, d) == c
  {
    CeilDivAtMost(n, d, c);
    CeilDivAtLeast(n, d, c);
  }

  /** A coordinate lies between the two ends. */
  lemma CoordinateInRange(start: int, extent: int, i: nat, length: nat)
    requires Abs(extent) < length && i < length
    ensures Min(start, start + extent) <= Coordinate(start, extent, i, length) <= Max(start, start + extent)
  {
    var n := i * extent;
    assert (0 - 1) * length + length == 0;
    assert (extent - 1) * length == extent * length - length;
    if extent >= 0 {
      Scale(i, length, extent);
      Scale(0, i, extent);
      CeilDivAtMost(n, length, extent);
      CeilDivAtLeast(n, length, 0);
    } else {
      Scale(i, length, -extent);
      Scale(0, i, -extent);
      assert n == -(i * -extent) && extent * length == -(length * -extent);
      CeilDivAtMost(n, length, 0);
      CeilDivAtLeast(n, length, extent);
    }
  }

  /** From one point to the next a coordinate changes by at most one, and towards the end. */
  lemma CoordinateSteps(start: int, extent: int, i: nat, length: nat)
    requires Abs(extent) < length
    ensures var step := Coordinate(start, extent, i + 1, length) - Coordinate(start, extent, i, length);
            if extent >= 0 then 0 <= step <= 1 else -1 <= step <= 0
  {
    var n := i * extent;
    var c := CeilDiv(n, length);
    assert (i + 1) * extent == n + extent;
    assert (c + 1) * length == c * length + length && (c - 1) * length == c * length - length;
    assert (c - 2) * length == c * length - length - length;
    if extent >= 0 {
      CeilDivAtMost(n + extent, length, c + 1);
      CeilDivAtLeast(n + extent, length, c);
    } else {
      CeilDivAtMost(n + extent, length, c);
      CeilDivAtLeast(n + extent, length, c - 1);
    }
  }

  /** The last point has the coordinate of the end exactly if the line does not run backwards; if it does, it is one off. */
  lemma LastCoordinate(start: int, extent: int, length: nat)
    requires length > 0 && Abs(extent) < length
    ensures Coordinate(start, extent, length - 1, length) == start + extent + if extent < 0 then 1 else 0
  {
    assert (length - 1) * extent == extent * length - extent;
    assert (extent - 1) * length == extent * length - length;
    assert (extent + 1) * length == extent * length + length;
    CeilDivIs((length - 1) * extent, length, if extent < 0 then extent + 1 else extent);
  }

  lemma FirstCoordinate(start: int, extent: int, length: nat)
    requires length > 0
    ensures Coordinate(start, extent, 0, length) == start
  {
    CeilDivIs(0, length, 0);
  }

  ghost predicate InBox(p: Point, a: Point, b: Point) {
    Min(a.x, b.x) <= p.x <= Max(a.x, b.x) && Min(a.y, b.y) <= p.y <= Max(a.y, b.y)
  }

  lemma PointsInBox(start: Point, end: Point, i: nat)
    requires i < Length(start, end)
    ensures InBox(LinePoint(start, end, i), start, end)
  {
    CoordinateInRange(start.x, end.x - start.x, i, Length(start, end));
    CoordinateInRange(start.y, end.y - start.y, i, Length(start, end));
  }

  /** A point is the straight line at its step, rounded up: no integer in between. */
  lemma PointIsRoundedUp(start: Point, end: Point, i: nat)
    ensures var n, p := Length(start, end), LinePoint(start, end, i);
            && (p.x - 1 - start.x) * n < i * (end.x - start.x) <= (p.x - start.x) * n
            && (p.y - 1 - start.y) * n < i * (end.y - start.y) <= (p.y - start.y) * n
  {
    RoundedUp(start.x, end.x - start.x, i, Length(start, end));
    RoundedUp(start.y, end.y - start.y, i, Length(start, end));
  }

  lemma RoundedUp(start: int, extent: int, i: nat, length: nat)
    requires length > 0
    ensures (Coordinate(start, extent, i, length) - 1 - start) * length < i * extent
    ensures i * extent <= (Coordinate(start, extent, i, length) - start) * length
  {
    var c := CeilDiv(i * extent, length);
    assert Coordinate(start, extent, i, length) - start == c;
    assert Coordinate(start, extent, i, length) - 1 - start == c - 1;
  }

  lemma LineIsConnected(start: Point, end: Point, i: nat)
    requires i + 1 < Length(start, end)
    ensures var p, q := LinePoint(start, end, i), LinePoint(start, end, i + 1);
            Abs(q.x - p.x) <= 1 && Abs(q.y - p.y) <= 1
  {
    CoordinateSteps(start.x, end.x - start.x, i, Length(start, end));
    CoordinateSteps(start.y, end.y - start.y, i, Length(start, end));
  }

  /** A line starts at its start, and reaches its end exactly if both extents are nonnegative. */
  lemma EndIsReachedIff(start: Point, end: Point)
    ensures LinePoint(start, end, 0) == start
    ensures LinePoint(start, end, Length(start, end) - 1) == end <==> start.x <= end.x && start.y <= end.y
    ensures (exists i :: 0 <= i < Length(start, end) && LinePoint(start, end, i) == end) <==> start.x <= end.x && start.y <= end.y
  {
    var n := Length(start, end);
    FirstCoordinate(start.x, end.x - start.x, n);
    FirstCoordinate(start.y, end.y - start.y, n);
    LastCoordinate(start.x, end.x - start.x, n);
    LastCoordinate(start.y, end.y - start.y, n);
    forall i | 0 <= i < n
      ensures end.x < start.x ==> LinePoint(start, end, i).x > end.x
      ensures end.y < start.y ==> LinePoint(start, end, i).y > end.y
    {
      BackwardsStopsShort(start.x, end.x - start.x, i, n);
      BackwardsStopsShort(start.y, end.y - start.y, i, n);
    }
  }

  lemma BackwardsStopsShort(start: int, extent: int, i: nat, length: nat)
    requires Abs(extent) < length && i < length
    ensures extent < 0 ==> Coordinate(start, extent, i, length) > start + extent
  {
    if extent < 0 {
      Scale(i + 1, length, -extent);
      assert (i + 1) * -extent == -(i * extent) - extent && length * -extent == -(extent * length);
      CeilDivAtLeast(i * extent, length, extent + 1);
    }
  }

  /** A horizontal or vertical line that runs forwards has all its points. */
  lemma StraightCoordinate(start: int, extent: nat, i: nat)
    requires i <= extent
    ensures Coordinate(start, extent, i, extent + 1) == start + i
  {
    assert i * extent == i * (extent + 1) - i;
    assert (i - 1) * (extent + 1) == i * (extent + 1) - (extent + 1);
    CeilDivIs(i * extent, extent + 1, i);
  }

  lemma FlatCoordinate(start: int, i: nat, length: nat)
    requires length > 0
    ensures Coordinate(start, 0, i, length) == start
  {
    CeilDivIs(0, length, 0);
  }

  lemma HorizontalLine(start: Point, end: Point, p: Point)
    requires start.y == end.y && start.x <= end.x
    ensures (exists i :: 0 <= i < Length(start, end) && LinePoint(start, end, i) == p) <==> p.y == start.y && start.x <= p.x <= end.x
  {
    forall i | 0 <= i < Length(start, end)
      ensures LinePoint(start, end, i) == Point(start.x + i, start.y)
    {
      StraightCoordinate(start.x, end.x - start.x, i);
      FlatCoordinate(start.y, i, Length(start, end));
    }
    if p.y == start.y && start.x <= p.x <= end.x {
      assert LinePoint(start, end, p.x - start.x) == p;
    }
  }

  lemma VerticalLine(start: Point, end: Point, p: Point)
    requires start.x == end.x && start.y <= end.y
    ensures (exists i :: 0 <= i < Length(start, end) && LinePoint(start, end, i) == p) <==> p.x == start.x && start.y <= p.y <= end.y
  {
    forall i | 0 <= i < Length(start, end)
      ensures LinePoint(start, end, i) == Point(start.x, start.y + i)
    {
      StraightCoordinate(start.y, end.y - start.y, i);
      FlatCoordinate(start.x, i, Length(start, end));
    }
    if p.x == start.x && start.y <= p.y <= end.y {
      assert LinePoint(start, end, p.y - start.y) == p;
    }
  }
}
