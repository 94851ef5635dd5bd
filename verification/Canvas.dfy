/** Drawing shapes onto a matrix that is sized by their extents. */
module Canvas {
  import opened Common
  import opened Lines

  datatype Box = Box(low: Point, high: Point)

  predicate Within(p: Point, b: Box) {
    b.low.x <= p.x <= b.high.x && b.low.y <= p.y <= b.high.y
  }

  /** A matrix of strings; offsets shift the indices. */
  class TextMatrix {
    const width: nat
    const height: nat
    const xOffset: int
    const yOffset: int
    const content: array2<string>

    constructor (width: nat, height: nat, xOffset: int, yOffset: int)
      requires width > 0 && height > 0
      ensures this.width == width && this.height == height && this.xOffset == xOffset && this.yOffset == yOffset
      ensures Valid() && fresh(content)
      ensures forall p :: Contains(p) ==> At(p) == " "
    {
      this.width, this.height, this.xOffset, this.yOffset := width, height, xOffset, yOffset;
      content := new string[height, width]((_, _) => " ");
    }

    predicate Valid() {
      content.Length0 == height && content.Length1 == width
    }

    /** The assertions of `__getitem__` and `__setitem__`. */
    predicate Contains(p: Point) {
      0 <= p.x + xOffset < width && 0 <= p.y + yOffset < height
    }

    function At(p: Point): string
      requires Valid() && Contains(p)
      reads content
    {
      content[p.y + yOffset, p.x + xOffset]
    }

    predicate Covers(b: Box) {
      b.low.x <= b.high.x && b.low.y <= b.high.y ==> Contains(b.low) && Contains(b.high)
    }

    method Set(p: Point, value: string)
      requires Valid() && Contains(p)
      modifies content
      ensures At(p) == value && forall q :: Contains(q) && q != p ==> At(q) == old(At(q))
    {
      content[p.y + yOffset, p.x + xOffset] := value;
    }

    /** `draw_line`: exactly the points of the line are filled. */
    method DrawLine(start: Point, end: Point, value: string)
      requires Valid() && Contains(start) && Contains(end)
      modifies content
      ensures forall q :: Contains(q) ==>
                At(q) == if exists i :: 0 <= i < Length(start, end) && LinePoint(start, end, i) == q then value else old(At(q))
    {
      var points := LinePoints(start, end);
      for n := 0 to |points|
        invariant forall q :: Contains(q) ==>
                    At(q) == if exists i :: 0 <= i < n && points[i] == q then value else old(At(q))
      {
        PointsInBox(start, end, n);
        Set(points[n], value);
      }
      assert forall i :: 0 <= i < |points| ==> points[i] == LinePoint(start, end, i);
    }

    /** `draw` of a blank matrix: exactly the box is blanked. */
    method DrawBlank(low: Point, width: nat, height: nat)
      requires Valid() && width > 0 && height > 0
      requires Contains(low) && Contains(Point(low.x + width - 1, low.y + height - 1))
      modifies content
      ensures forall q :: Contains(q) ==>
                At(q) == if Within(q, Box(low, Point(low.x + width - 1, low.y + height - 1))) then " " else old(At(q))
    {
      for y := 0 to height
        invariant forall q :: Contains(q) ==>
                    At(q) == if low.x <= q.x < low.x + width && low.y <= q.y < low.y + y then " " else old(At(q))
      {
        for x := 0 to width
          invariant forall q :: Contains(q) ==>
                      At(q) == if (low.x <= q.x < low.x + width && low.y <= q.y < low.y + y)
                                  || (q.y == low.y + y && low.x <= q.x < low.x + x) then " " else old(At(q))
        {
          Set(Point(low.x + x, low.y + y), " ");
        }
      }
    }
  }

  // ---------- Shapes ----------

  datatype CharacterSet = CharacterSet(topLeft: string, bottomLeft: string, topRight: string, bottomRight: string,
                                       horizontal: string, vertical: string)

  /** The shapes, with the styles they are drawn in. */
  datatype Shape =
    | Text(point: Point, lines: seq<string>, paint: char -> string)
    | Node(point: Point, lines: seq<string>, paint: char -> string, border: CharacterSet)
    | Edge(start: Point, end: Point, mark: string)

  function LongestLine(lines: seq<string>): (n: nat)
    requires lines != []
    ensures forall i :: 0 <= i < |lines| ==> |lines[i]| <= n
    ensures exists i :: 0 <= i < |lines| && |lines[i]| == n
  {
    if |lines| == 1 then |lines[0]| else
      var n := LongestLine(lines[1..]);
      assert forall i :: 0 < i < |lines| ==> lines[i] == lines[1..][i - 1];
      if |lines[0]| < n then n else |lines[0]|
  }

  /** Can the shape be made and drawn? Text needs a line, and a node a line that is not empty. */
  predicate IsDrawable(s: Shape) {
    match s
    case Text(_, lines, _) => lines != []
    case Node(_, lines, _, _) => lines != [] && LongestLine(lines) > 0
    case Edge(_, _, _) => true
  }

  function TextExtent(point: Point, lines: seq<string>): Box
    requires lines != []
  {
    Box(point, Point(point.x + LongestLine(lines) - 1, point.y + |lines| - 1))
  }

  function Extent(s: Shape): Box
    requires IsDrawable(s)
  {
    match s
    case Text(point, lines, _) => TextExtent(point, lines)
    case Node(point, lines, _, _) =>
      var text := TextExtent(Point(point.x + 1, point.y + 1), lines);
      Box(point, Point(text.high.x + 1, text.high.y + 1))
    case Edge(start, end, _) =>
      Box(Point(Min(start.x, end.x), Min(start.y, end.y)), Point(Max(start.x, end.x), Max(start.y, end.y)))
  }

  function TextCell(point: Point, lines: seq<string>, paint: char -> string, q: Point): Option<string> {
    if 0 <= q.y - point.y < |lines| && 0 <= q.x - point.x < |lines[q.y - point.y]|
    then Some(paint(lines[q.y - point.y][q.x - point.x])) else None
  }

  function BoxCell(b: Box, border: CharacterSet, q: Point): Option<string> {
    if !Within(q, b) then None
    else if q == b.low then Some(border.topLeft)
    else if q == b.high then Some(border.bottomRight)
    else if q == Point(b.low.x, b.high.y) then Some(border.bottomLeft)
    else if q == Point(b.high.x, b.low.y) then Some(border.topRight)
    else if q.y == b.low.y || q.y == b.high.y then Some(border.horizontal)
    else if q.x == b.low.x || q.x == b.high.x then Some(border.vertical)
    else Some(" ")
  }

  /** What a shape writes at a point, if it writes there. */
  ghost function Cell(s: Shape, q: Point): Option<string>
    requires IsDrawable(s)
  {
    match s
    case Text(point, lines, paint) => TextCell(point, lines, paint, q)
    case Node(point, lines, paint, border) =>
      var text := TextCell(Point(point.x + 1, point.y + 1), lines, paint, q);
      if text.Some? then text else BoxCell(Extent(s), border, q)
    case Edge(start, end, mark) =>
      if exists i :: 0 <= i < Length(start, end) && LinePoint(start, end, i) == q then Some(mark) else None
  }

  /** A shape writes only within its extent. */
  lemma CellsAreInExtent(s: Shape, q: Point)
    requires IsDrawable(s) && Cell(s, q).Some?
    ensures Within(q, Extent(s))
  {
    if s.Edge? {
      var i :| 0 <= i < Length(s.start, s.end) && LinePoint(s.start, s.end, i) == q;
      PointsInBox(s.start, s.end, i);
    }
  }

  /** What is seen at a point: what the last shape to write there wrote. */
  ghost function Painted(shapes: seq<Shape>, q: Point): string
    requires forall s :: s in shapes ==> IsDrawable(s)
    decreases |shapes|
  {
    if shapes == [] then " " else
      var cell := Cell(shapes[|shapes| - 1], q);
      if cell.Some? then cell.value else Painted(shapes[..|shapes| - 1], q)
  }

  function Default<T>(o: Option<T>, d: T): T {
    if o.Some? then o.value else d
  }

  method DrawText(m: TextMatrix, point: Point, lines: seq<string>, paint: char -> string)
    requires m.Valid()
    requires forall q :: TextCell(point, lines, paint, q).Some? ==> m.Contains(q)
    modifies m.content
    ensures forall q :: m.Contains(q) ==> m.At(q) == Default(TextCell(point, lines, paint, q), old(m.At(q)))
  {
    for y := 0 to |lines|
      invariant forall q :: m.Contains(q) ==>
                  m.At(q) == if q.y < point.y + y then Default(TextCell(point, lines, paint, q), old(m.At(q))) else old(m.At(q))
    {
      for x := 0 to |lines[y]|
        invariant forall q :: m.Contains(q) ==>
                    m.At(q) == if q.y < point.y + y || (q.y == point.y + y && q.x < point.x + x)
                               then Default(TextCell(point, lines, paint, q), old(m.At(q))) else old(m.At(q))
      {
        var p := Point(point.x + x, point.y + y);
        assert TextCell(point, lines, paint, p).Some?;
        m.Set(p, paint(lines[y][x]));
      }
    }
  }

  method DrawBox(m: TextMatrix, b: Box, border: CharacterSet)
    requires m.Valid() && m.Contains(b.low) && m.Contains(b.high) && b.low.x + 2 <= b.high.x && b.low.y + 2 <= b.high.y
    modifies m.content
    ensures forall q :: m.Contains(q) ==> m.At(q) == Default(BoxCell(b, border, q), old(m.At(q)))
  {
    DrawSides(m, b, border);
    m.Set(b.low, border.topLeft);
    m.Set(Point(b.low.x, b.high.y), border.bottomLeft);
    m.Set(Point(b.high.x, b.low.y), border.topRight);
    m.Set(b.high, border.bottomRight);
    m.DrawBlank(Point(b.low.x + 1, b.low.y + 1), b.high.x - b.low.x - 1, b.high.y - b.low.y - 1);
  }

  /** The four sides; the vertical ones run over the lower corners. */
  method DrawSides(m: TextMatrix, b: Box, border: CharacterSet)
    requires m.Valid() && m.Contains(b.low) && m.Contains(b.high) && b.low.x + 2 <= b.high.x && b.low.y + 2 <= b.high.y
    modifies m.content
    ensures forall q :: m.Contains(q) ==>
              m.At(q) == if (q.x == b.low.x || q.x == b.high.x) && b.low.y < q.y <= b.high.y then border.vertical
                         else if (q.y == b.low.y || q.y == b.high.y) && b.low.x < q.x < b.high.x then border.horizontal
                         else old(m.At(q))
  {
    DrawHorizontal(m, b.low.x + 1, b.high.x - 1, b.low.y, border.horizontal);
    DrawHorizontal(m, b.low.x + 1, b.high.x - 1, b.high.y, border.horizontal);
    DrawVertical(m, b.low.x, b.low.y + 1, b.high.y, border.vertical);
    DrawVertical(m, b.high.x, b.low.y + 1, b.high.y, border.vertical);
  }

  method DrawHorizontal(m: TextMatrix, left: int, right: int, y: int, value: string)
    requires m.Valid() && left <= right && m.Contains(Point(left, y)) && m.Contains(Point(right, y))
    modifies m.content
    ensures forall q :: m.Contains(q) ==> m.At(q) == if q.y == y && left <= q.x <= right then value else old(m.At(q))
  {
    m.DrawLine(Point(left, y), Point(right, y), value);
    forall q | m.Contains(q)
      ensures m.At(q) == if q.y == y && left <= q.x <= right then value else old(m.At(q))
    {
      HorizontalLine(Point(left, y), Point(right, y), q);
    }
  }

  method DrawVertical(m: TextMatrix, x: int, top: int, bottom: int, value: string)
    requires m.Valid() && top <= bottom && m.Contains(Point(x, top)) && m.Contains(Point(x, bottom))
    modifies m.content
    ensures forall q :: m.Contains(q) ==> m.At(q) == if q.x == x && top <= q.y <= bottom then value else old(m.At(q))
  {
    m.DrawLine(Point(x, top), Point(x, bottom), value);
    forall q | m.Contains(q)
      ensures m.At(q) == if q.x == x && top <= q.y <= bottom then value else old(m.At(q))
    {
      VerticalLine(Point(x, top), Point(x, bottom), q);
    }
  }

  method Draw(m: TextMatrix, s: Shape)
    requires m.Valid() && IsDrawable(s) && m.Covers(Extent(s))
    modifies m.content
    ensures forall q :: m.Contains(q) ==> m.At(q) == Default(Cell(s, q), old(m.At(q)))
  {
    match s
    case Text(point, lines, paint) =>
      forall q | TextCell(point, lines, paint, q).Some?
        ensures m.Contains(q)
      {
        CellsAreInExtent(s, q);
      }
      DrawText(m, point, lines, paint);
    case Node(point, lines, paint, border) =>
      var inner := Point(point.x + 1, point.y + 1);
      forall q | TextCell(inner, lines, paint, q).Some?
        ensures m.Contains(q)
      {
        CellsAreInExtent(s, q);
      }
      DrawBox(m, Extent(s), border);
      DrawText(m, inner, lines, paint);
    case Edge(start, end, mark) =>
      assert m.Contains(Extent(s).low) && m.Contains(Extent(s).high);
      m.DrawLine(start, end, mark);
  }

  const FAR: int := 0x1_0000_0000_0000_0000

  /** The first loop of `render`: a box around all extents. */
  method Surround(shapes: seq<Shape>) returns (b: Box)
    requires forall s :: s in shapes ==> IsDrawable(s)
    ensures forall s :: s in shapes ==>
              && b.low.x <= Extent(s).low.x && b.low.y <= Extent(s).low.y
              && Extent(s).high.x <= b.high.x && Extent(s).high.y <= b.high.y
    ensures shapes == [] ==> b.low == Point(FAR, FAR) && b.high == Point(-FAR, -FAR)
  {
    b := Box(Point(FAR, FAR), Point(-FAR, -FAR));
    for i := 0 to |shapes|
      invariant i == 0 ==> b == Box(Point(FAR, FAR), Point(-FAR, -FAR))
      invariant forall j :: 0 <= j < i ==>
                  && b.low.x <= Extent(shapes[j]).low.x && b.low.y <= Extent(shapes[j]).low.y
                  && Extent(shapes[j]).high.x <= b.high.x && Extent(shapes[j]).high.y <= b.high.y
    {
      var e := Extent(shapes[i]);
      b := Box(Point(Min(b.low.x, e.low.x), Min(b.low.y, e.low.y)), Point(Max(b.high.x, e.high.x), Max(b.high.y, e.high.y)));
    }
  }

  /**
   * `render` of shapes in the order of their layers. It fails only if there is nothing to draw or a
   * shape cannot be drawn; otherwise no index is ever out of the matrix, whatever the coordinates,
   * and every cell shows the last shape that wrote there.
   */
  method Render(shapes: seq<Shape>) returns (r: Outcome<TextMatrix>)
    ensures r.Raised? <==> shapes == [] || exists s :: s in shapes && !IsDrawable(s)
    ensures r.Done? ==> r.value.Valid() && forall q :: r.value.Contains(q) ==> r.value.At(q) == Painted(shapes, q)
    ensures r.Done? ==> forall s, q :: s in shapes && Cell(s, q).Some? ==> r.value.Contains(q)
  {
    if exists i :: 0 <= i < |shapes| && !IsDrawable(shapes[i]) {
      return Raised;
    }
    var b := Surround(shapes);
    var width, height := b.high.x - b.low.x + 30, b.high.y - b.low.y + 2;
    if shapes != [] {
      assert shapes[0] in shapes;
    }
    if width <= 0 || height <= 0 {
      return Raised;
    }
    var m := new TextMatrix(width, height, -b.low.x, -b.low.y);
    for i := 0 to |shapes|
      invariant forall q :: m.Contains(q) ==> m.At(q) == Painted(shapes[..i], q)
    {
      assert shapes[..i + 1][..i] == shapes[..i];
      Draw(m, shapes[i]);
    }
    assert shapes[..|shapes|] == shapes;
    forall s, q | s in shapes && Cell(s, q).Some?
      ensures m.Contains(q)
    {
      CellsAreInExtent(s, q);
    }
    return Done(m);
  }
}
