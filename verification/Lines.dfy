/** Line drawing in all octants, into a frame buffer of WIDTH by HEIGHT bytes. */
module Lines {
  import opened Words

  const WIDTH := 640
  const HEIGHT := 480

  type i32 = x: int | -0x8000_0000 <= x < 0x8000_0000

  datatype Point = Point(x: int, y: int)

  function Abs(x: int): int { if x < 0 then -x else x }

  /** Coordinates that cutting to 16 bits does not move onto the screen. */
  predicate Boxed(p: Point) {
    WIDTH - 0x1_0000 <= p.x < 0x1_0000 && HEIGHT - 0x1_0000 <= p.y < 0x1_0000
  }

  /** Coordinates whose lines keep the error term inside 32 bits. */
  predicate InRange(p: Point) {
    -0x1000_0000 <= p.x <= 0x1000_0000 && -0x1000_0000 <= p.y <= 0x1000_0000
  }

  // ----- what a line is -----

  /** After a steps along x and b along y the pixel is the nearest to the ideal line in its column
      or row; of two equally near ones it is the one with fewer steps along y, or with more along x. */
  predicate Near(dx: int, dy: int, a: int, b: int) {
    var d := 2 * (b * dx - a * dy);
    if dx >= dy then -dx <= d && (d < dx || d == 0) else -dy < d <= dy
  }

  /** After n rounds: a steps along x and b along y, one of them in every round. */
  predicate Drawn(dx: int, dy: int, a: int, b: int, n: int) {
    && 0 <= a <= dx && 0 <= b <= dy && Near(dx, dy, a, b)
    && (if dx >= dy then a == n else b == n)
  }

  /** The k-th pixel of the line. */
  predicate OffsetOk(p: Point, k: int, start: Point, end: Point) {
    && Drawn(Abs(end.x - start.x), Abs(end.y - start.y), Abs(p.x - start.x), Abs(p.y - start.y), k)
    && (if start.x < end.x then p.x >= start.x else p.x <= start.x)
    && (if start.y < end.y then p.y >= start.y else p.y <= start.y)
  }

  predicate Neighbours(p: Point, q: Point) {
    p != q && Abs(p.x - q.x) <= 1 && Abs(p.y - q.y) <= 1
  }

  /** A line: as few pixels as the longer side needs, from start to end, each next to the one
      before and each the nearest to the ideal. */
  predicate IsLine(path: seq<Point>, start: Point, end: Point) {
    && |path| == Max(Abs(end.x - start.x), Abs(end.y - start.y)) + 1
    && path[0] == start && path[|path| - 1] == end
    && (forall k | 0 <= k < |path| - 1 :: Neighbours(path[k], path[k + 1]))
    && forall k | 0 <= k < |path| :: OffsetOk(path[k], k, start, end)
  }

  // ----- one step -----

  function Error(dx: int, dy: int, a: int, b: int): int {
    dx - dy + b * dx - a * dy
  }

  lemma {:induction false} MoreSteps(dx: int, dy: int, a: int, b: int)
    ensures (a + 1) * dy == a * dy + dy && (b + 1) * dx == b * dx + dx
  {
  }

  /** A product that stays within half a factor. */
  lemma {:induction false} Whole(d: int, k: int)
    requires d > 0 && 2 * Abs(k * d) <= d
    ensures k == 0
  {
    if k >= 1 {
      MulMono(k, 1, d);
    } else if k <= -1 {
      MulMono(-1, k, d);
    }
  }

  lemma {:induction false} Bounded(d: int, e: int, k: int, m: int)
    requires d > 0 && m <= d && 2 * (k * d - m * e) <= d && e >= 0
    ensures k <= e
  {
    if k >= e + 1 {
      MulMono(k, e + 1, d);
      MulMono(d, m, e);
    }
  }

  function NextX(dx: int, dy: int, a: int, b: int): int {
    if Error(dx, dy, a, b) * 2 > -dy then a + 1 else a
  }

  function NextY(dx: int, dy: int, a: int, b: int): int {
    if Error(dx, dy, a, b) * 2 < dx then b + 1 else b
  }

  /** The code's two tests keep the pixel near the ideal line. */
  lemma {:induction false} StepKeepsNear(dx: int, dy: int, a: int, b: int, n: int)
    requires 0 <= dx && 0 <= dy && Drawn(dx, dy, a, b, n) && n < Max(dx, dy)
    ensures Drawn(dx, dy, NextX(dx, dy, a, b), NextY(dx, dy, a, b), n + 1)
    ensures NextX(dx, dy, a, b) + NextY(dx, dy, a, b) > a + b
  {
    if dx >= dy { StepX(dx, dy, a, b, n); } else { StepY(dx, dy, a, b, n); }
  }

  lemma {:induction false} Diagonal(d: int, a: int, b: int)
    requires d > 0 && 2 * Abs(b * d - a * d) <= d
    ensures b * d - a * d == 0
  {
    assert b * d - a * d == (b - a) * d;
    Whole(d, b - a);
  }

  lemma {:induction false} StepX(dx: int, dy: int, a: int, b: int, n: int)
    requires 0 <= dy <= dx && Drawn(dx, dy, a, b, n) && n < dx
    ensures NextX(dx, dy, a, b) == a + 1 && Drawn(dx, dy, a + 1, NextY(dx, dy, a, b), n + 1)
  {
    var d := b * dx - a * dy;
    if dx == dy {
      Diagonal(dx, a, b);
    }
    assert Error(dx, dy, a, b) == dx - dy + d;
    StepAlongX(dx, dy, d);
    MoreSteps(dx, dy, a, b);
    var b' := NextY(dx, dy, a, b);
    var d' := b' * dx - (a + 1) * dy;
    assert d' == d - dy + (if (dx - dy + d) * 2 < dx then dx else 0);
    hide NextY, NextX, Error;
    Bounded(dx, dy, b', a + 1);
  }

  lemma {:induction false} StepY(dx: int, dy: int, a: int, b: int, n: int)
    requires 0 <= dx < dy && Drawn(dx, dy, a, b, n) && n < dy
    ensures NextY(dx, dy, a, b) == b + 1 && Drawn(dx, dy, NextX(dx, dy, a, b), b + 1, n + 1)
  {
    var d := b * dx - a * dy;
    assert Error(dx, dy, a, b) == dx - dy + d;
    StepAlongY(dx, dy, d);
    MoreSteps(dx, dy, a, b);
    var a' := NextX(dx, dy, a, b);
    var d' := (b + 1) * dx - a' * dy;
    assert d' == d + dx - (if (dx - dy + d) * 2 > -dy then dy else 0);
    hide NextY, NextX, Error;
    Bounded(dy, dx, a', b + 1);
  }

  lemma {:induction false} ErrorStep(dx: int, dy: int, a: int, b: int)
    ensures Error(dx, dy, a + 1, b) == Error(dx, dy, a, b) - dy
    ensures Error(dx, dy, a, b + 1) == Error(dx, dy, a, b) + dx
    ensures Error(dx, dy, a + 1, b + 1) == Error(dx, dy, a, b) - dy + dx
    ensures Error(dx, dy, 0, 0) == dx - dy
  {
    MoreSteps(dx, dy, a, b);
  }

  lemma {:induction false} StepAlongX(dx: int, dy: int, d: int)
    requires 0 <= dy <= dx && 0 < dx && -dx <= 2 * d < dx && (dx == dy ==> d == 0)
    ensures var e2 := (dx - dy + d) * 2;
            var d' := d - dy + (if e2 < dx then dx else 0);
            e2 > -dy && -dx <= 2 * d' < dx
  {
  }

  lemma {:induction false} StepAlongY(dx: int, dy: int, d: int)
    requires 0 <= dx < dy && -dy < 2 * d <= dy
    ensures var e2 := (dx - dy + d) * 2;
            var d' := d + dx - (if e2 > -dy then dy else 0);
            e2 < dx && -dy < 2 * d' <= dy
  {
  }

  /** The last round is the one that reaches the end, on both axes. */
  lemma {:induction false} DrawnEnd(dx: int, dy: int, a: int, b: int, n: int)
    requires 0 <= dx && 0 <= dy && Drawn(dx, dy, a, b, n)
    ensures a == dx && b == dy <==> n == Max(dx, dy)
  {
    if n == Max(dx, dy) && n > 0 {
      if dx >= dy {
        assert b * dx - dx * dy == (b - dy) * dx;
        Whole(dx, b - dy);
      } else {
        assert dy * dx - a * dy == (dx - a) * dy;
        Whole(dy, dx - a);
      }
    }
  }

  /** The error term stays inside 32 bits. */
  lemma {:induction false} ErrorFits(dx: int, dy: int, a: int, b: int, n: int)
    requires 0 <= dx <= 0x2000_0000 && 0 <= dy <= 0x2000_0000 && Drawn(dx, dy, a, b, n)
    ensures -0x6000_0000 <= Error(dx, dy, a, b) * 2 <= 0x6000_0000
  {
    var d := b * dx - a * dy;
    assert Error(dx, dy, a, b) == dx - dy + d;
  }

  // ----- the pen -----

  /** The pixel after a steps along x and b along y. */
  function Pen(start: Point, end: Point, a: int, b: int): Point {
    Point(if start.x < end.x then start.x + a else start.x - a, if start.y < end.y then start.y + b else start.y - b)
  }

  /** The pixels plotted so far, the pen being about to plot the next one. */
  predicate Partial(path: seq<Point>, start: Point, end: Point, n: int, pen: Point) {
    && |path| == n && (n == 0 ==> pen == start)
    && (n > 0 ==> path[0] == start && Neighbours(path[n - 1], pen))
    && (forall k | 0 <= k < |path| - 1 :: Neighbours(path[k], path[k + 1]))
    && forall k | 0 <= k < |path| :: OffsetOk(path[k], k, start, end)
  }

  lemma {:induction false} PenFacts(start: Point, end: Point, a: int, b: int, n: int)
    requires Drawn(Abs(end.x - start.x), Abs(end.y - start.y), a, b, n)
    ensures OffsetOk(Pen(start, end, a, b), n, start, end)
    ensures Pen(start, end, a, b) == end <==> a == Abs(end.x - start.x) && b == Abs(end.y - start.y)
    ensures Pen(start, end, 0, 0) == start
  {
  }

  lemma {:induction false} PenMoves(start: Point, end: Point, a: int, b: int, a': int, b': int)
    requires a <= a' <= a + 1 && b <= b' <= b + 1 && a' + b' > a + b
    ensures Neighbours(Pen(start, end, a, b), Pen(start, end, a', b'))
  {
  }

  lemma {:induction false} PartialMore(path: seq<Point>, start: Point, end: Point, n: int, pen: Point, pen': Point)
    requires Partial(path, start, end, n, pen) && OffsetOk(pen, n, start, end) && Neighbours(pen, pen') && n >= 0
    ensures Partial(path + [pen], start, end, n + 1, pen')
  {
    hide OffsetOk, Neighbours;
  }

  lemma {:induction false} PartialEnd(path: seq<Point>, start: Point, end: Point, n: int)
    requires Partial(path, start, end, n, end) && OffsetOk(end, n, start, end)
    requires n == Max(Abs(end.x - start.x), Abs(end.y - start.y))
    ensures IsLine(path + [end], start, end)
  {
    hide OffsetOk, Neighbours, Max, Abs;
  }

  lemma {:induction false} NextPen(start: Point, end: Point, a: int, b: int)
    ensures var dx, dy := Abs(end.x - start.x), Abs(end.y - start.y);
            var e := Error(dx, dy, a, b);
            var p, q := Pen(start, end, a, b), Pen(start, end, NextX(dx, dy, a, b), NextY(dx, dy, a, b));
            var sx, sy := if start.x < end.x then 1 else -1, if start.y < end.y then 1 else -1;
            && q.x == (if e * 2 > -dy then p.x + sx else p.x)
            && q.y == (if e * 2 < dx then p.y + sy else p.y)
            && Error(dx, dy, NextX(dx, dy, a, b), NextY(dx, dy, a, b))
               == e - (if e * 2 > -dy then dy else 0) + (if e * 2 < dx then dx else 0)
            && a <= NextX(dx, dy, a, b) <= a + 1 && b <= NextY(dx, dy, a, b) <= b + 1
  {
    var dx, dy := Abs(end.x - start.x), Abs(end.y - start.y);
    ErrorStep(dx, dy, a, b);
    hide Error, Abs;
  }

  /** No pixel is further than half a step from the ideal line. */
  lemma {:induction false} HalfStep(dx: int, dy: int, a: int, b: int)
    requires 0 <= dx && 0 <= dy && Near(dx, dy, a, b)
    ensures 2 * Abs(b * dx - a * dy) <= Max(dx, dy)
  {
    var d := b * dx - a * dy;
    assert -Max(dx, dy) <= 2 * d <= Max(dx, dy);
  }

  /** There is exactly one such line. */
  lemma {:induction false} LineUnique(p: seq<Point>, q: seq<Point>, start: Point, end: Point)
    requires IsLine(p, start, end) && IsLine(q, start, end)
    ensures p == q
  {
    hide Drawn;
    var dx, dy := Abs(end.x - start.x), Abs(end.y - start.y);
    forall k | 0 <= k < |p|
      ensures p[k] == q[k]
    {
      assert OffsetOk(p[k], k, start, end) && OffsetOk(q[k], k, start, end);
      OffsetUnique(dx, dy, Abs(p[k].x - start.x), Abs(p[k].y - start.y), Abs(q[k].x - start.x),
                   Abs(q[k].y - start.y), k);
    }
  }

  lemma {:induction false} OffsetUnique(dx: int, dy: int, a: int, b: int, a': int, b': int, k: int)
    requires 0 <= dx && 0 <= dy && Drawn(dx, dy, a, b, k) && Drawn(dx, dy, a', b', k)
    ensures a == a' && b == b'
  {
    if dx >= dy && dx > 0 {
      assert (b - b') * dx == b * dx - b' * dx;
      Less(dx, b - b');
    } else if dy > dx {
      assert (a - a') * dy == a * dy - a' * dy;
      Less(dy, a - a');
    }
  }

  lemma {:induction false} Less(d: int, k: int)
    requires d > 0 && -d < k * d < d
    ensures k == 0
  {
    if k >= 1 {
      MulMono(k, 1, d);
    } else if k <= -1 {
      MulMono(-1, k, d);
    }
  }

  // ----- pixels -----

  /** A 16-bit argument of the pixel routine. */
  function Cut16(x: int): int { x % 0x1_0000 }

  predicate OnScreen(p: Point) { 0 <= p.x < WIDTH && 0 <= p.y < HEIGHT }

  function Index(p: Point): int
    requires OnScreen(p)
    ensures 0 <= Index(p) < WIDTH * HEIGHT
  {
    p.y * WIDTH + p.x
  }

  lemma {:induction false} IndexInjective(p: Point, q: Point)
    requires OnScreen(p) && OnScreen(q)
    ensures Index(p) == Index(q) <==> p == q
  {
  }

  function Plotted(screen: seq<byte>, p: Point, c: byte): (r: seq<byte>)
    requires |screen| == WIDTH * HEIGHT
    ensures |r| == |screen|
  {
    if OnScreen(p) then screen[Index(p) := c] else screen
  }

  /** Where the pixel routine puts a point: coordinates are cut to 16 bits. */
  function Cut(p: Point): Point { Point(Cut16(p.x), Cut16(p.y)) }

  /** Where it puts the points of a path. */
  function Shown(path: seq<Point>): (r: seq<Point>)
    ensures |r| == |path| && forall k | 0 <= k < |path| :: r[k] == Cut(path[k])
  {
    if path == [] then [] else [Cut(path[0])] + Shown(path[1..])
  }

  /** A pixel shows the colour when the path comes by there, and what it showed before when not. */
  ghost predicate Painted(before: seq<byte>, after: seq<byte>, path: seq<Point>, c: byte) {
    |before| == |after| == WIDTH * HEIGHT &&
    forall p | OnScreen(p) :: after[Index(p)] == if p in Shown(path) then c else before[Index(p)]
  }

  lemma {:induction false} PaintedMore(before: seq<byte>, after: seq<byte>, path: seq<Point>, p: Point, c: byte)
    requires Painted(before, after, path, c)
    ensures Painted(before, Plotted(after, Cut(p), c), path + [p], c)
  {
    assert Shown(path + [p]) == Shown(path) + [Cut(p)];
    hide Cut, Cut16, Shown;
    var last := Plotted(after, Cut(p), c);
    forall q | OnScreen(q)
      ensures last[Index(q)] == if q in Shown(path) + [Cut(p)] then c else before[Index(q)]
    {
      if OnScreen(Cut(p)) {
        IndexInjective(Cut(p), q);
      }
    }
  }

  /** On the screen exactly the points of the path are painted. */
  ghost predicate Exact(path: seq<Point>) {
    forall p | OnScreen(p) :: p in Shown(path) <==> p in path
  }

  /** That is so if and only if no point comes back onto a pixel that is not the path's own. */
  lemma {:induction false} ExactIf(path: seq<Point>)
    ensures Exact(path) <==> forall q | q in path && OnScreen(Cut(q)) :: Cut(q) in path
  {
    hide Cut, OnScreen, Shown;
    if Exact(path) {
      forall q | q in path && OnScreen(Cut(q))
        ensures Cut(q) in path
      {
        ShownHas(path, q);
      }
    }
    if forall q | q in path && OnScreen(Cut(q)) :: Cut(q) in path {
      forall p | OnScreen(p)
        ensures p in Shown(path) <==> p in path
      {
        if p in path {
          CutStays(p);
          ShownHas(path, p);
        }
        if p in Shown(path) {
          var q := ShownFrom(path, p);
        }
      }
    }
  }

  lemma {:induction false} CutStays(p: Point)
    requires OnScreen(p)
    ensures Cut(p) == p
  {
  }

  lemma {:induction false} ShownHas(path: seq<Point>, q: Point)
    requires q in path
    ensures Cut(q) in Shown(path)
  {
    var k :| 0 <= k < |path| && path[k] == q;
    assert Shown(path)[k] == Cut(q);
    hide Cut, Shown;
  }

  lemma {:induction false} ShownFrom(path: seq<Point>, p: Point) returns (q: Point)
    requires p in Shown(path)
    ensures q in path && Cut(q) == p
  {
    hide Cut;
    var k :| 0 <= k < |path| && Shown(path)[k] == p;
    q := path[k];
  }

  /** Between end points in the box every line is painted exactly. */
  lemma {:induction false} BoxedLine(path: seq<Point>, start: Point, end: Point)
    requires IsLine(path, start, end) && Boxed(start) && Boxed(end)
    ensures Exact(path)
  {
    ExactIf(path);
    forall q | q in path && OnScreen(Cut(q))
      ensures Cut(q) in path
    {
      var k :| 0 <= k < |path| && path[k] == q;
      assert OffsetOk(path[k], k, start, end);
      hide Drawn, IsLine;
      CutBoxed(q);
    }
    hide *;
  }

  lemma {:induction false} CutBoxed(q: Point)
    requires Boxed(q) && OnScreen(Cut(q))
    ensures Cut(q) == q
  {
  }

  /** A line of one point is painted exactly if and only if the point does not come back. */
  lemma {:induction false} PointLine(q: Point)
    ensures IsLine([q], q, q)
    ensures Exact([q]) <==> (OnScreen(Cut(q)) ==> OnScreen(q))
  {
    ExactIf([q]);
    assert OffsetOk(q, 0, q, q);
  }

  /** The box is as large as can be: on each of its sides the next point comes back. */
  lemma {:induction false} BoxIsLargest(x: int, y: int)
    requires 0 <= x < WIDTH && 0 <= y < HEIGHT
    ensures !Exact([Point(WIDTH - 0x1_0000 - 1, y)]) && !Exact([Point(0x1_0000, y)])
    ensures !Exact([Point(x, HEIGHT - 0x1_0000 - 1)]) && !Exact([Point(x, 0x1_0000)])
  {
    hide Exact;
    PointLine(Point(WIDTH - 0x1_0000 - 1, y));
    PointLine(Point(0x1_0000, y));
    PointLine(Point(x, HEIGHT - 0x1_0000 - 1));
    PointLine(Point(x, 0x1_0000));
  }

  /** A line of 2^30 pixels to the right: the doubled error term leaves 32 bits in the first round. */
  lemma {:induction false} FarLineOverflows(start: Point)
    ensures var end := Point(start.x + 0x4000_0000, start.y);
            Error(Abs(end.x - start.x), Abs(end.y - start.y), 0, 0) * 2 == 0x8000_0000
  {
  }

  class Screen {
    const vrm: array<byte>

    constructor ()
      ensures fresh(vrm) && vrm.Length == 640 * 480
    {
      vrm := new byte[WIDTH * HEIGHT](_ => 0);
    }

    /** VRMPSet: byte i is column i % 640 of row i / 640. Coordinates are cut to 16 bits, so that
        negative ones lie off the screen too. */
    method PSet(x: int, y: int, c: byte)
      requires vrm.Length == 640 * 480
      modifies vrm
      ensures vrm[..] == Plotted(old(vrm[..]), Cut(Point(x, y)), c)
      ensures forall i | 0 <= i < 640 * 480 ::
                vrm[i] == if x % 0x1_0000 == i % 640 && y % 0x1_0000 == i / 640 then c else old(vrm[i])
    {
      var x16, y16 := Cut16(x), Cut16(y);
      if x16 >= WIDTH || y16 >= HEIGHT {
        return;
      }
      vrm[y16 * WIDTH + x16] := c;
      RowColumn(x16, y16);
    }

    /** VRMDrawLine. */
    method DrawLine(start: Point, end: Point, c: byte) returns (ghost path: seq<Point>)
      requires vrm.Length == 640 * 480 && InRange(start) && InRange(end)
      modifies vrm
      ensures IsLine(path, start, end)
      ensures Painted(old(vrm[..]), vrm[..], path, c)
      ensures forall i | 0 <= i < 640 * 480 ::
                vrm[i] == if exists q :: q in path && q.x % 0x1_0000 == i % 640 && q.y % 0x1_0000 == i / 640 then c
                          else old(vrm[i])
    {
      hide *;
      Sizes();
      var dx, dy := Abs(end.x - start.x), Abs(end.y - start.y);
      var sx, sy := if start.x < end.x then 1 else -1, if start.y < end.y then 1 else -1;
      LineStart(start, end, dx, dy);
      var err: i32 := dx - dy;
      var x, y := start.x, start.y;
      ghost var a, b, n, before := 0, 0, 0, vrm[..];
      path := [];
      ScreenStart(before, c);
      while true
        invariant Drawn(dx, dy, a, b, n) && 0 <= n <= Max(dx, dy) && err == Error(dx, dy, a, b)
        invariant Point(x, y) == Pen(start, end, a, b)
        invariant Partial(path, start, end, n, Point(x, y))
        invariant Painted(before, vrm[..], path, c)
        decreases Max(dx, dy) - n
      {
        PenFacts(start, end, a, b, n);
        PaintedMore(before, vrm[..], path, Point(x, y), c);
        PSet(x, y, c);
        DrawnEnd(dx, dy, a, b, n);
        if x == end.x && y == end.y {
          PartialEnd(path, start, end, n);
          path := path + [Point(x, y)];
          break;
        }
        ErrorFits(dx, dy, a, b, n);
        StepKeepsNear(dx, dy, a, b, n);
        NextPen(start, end, a, b);
        PenMoves(start, end, a, b, NextX(dx, dy, a, b), NextY(dx, dy, a, b));
        PartialMore(path, start, end, n, Point(x, y), Pen(start, end, NextX(dx, dy, a, b), NextY(dx, dy, a, b)));
        path := path + [Point(x, y)];
        var e2: i32 := err * 2;
        if e2 > -dy {
          err, x := err - dy, x + sx;
        }
        if e2 < dx {
          err, y := err + dx, y + sy;
        }
        a, b, n := NextX(dx, dy, a, b), NextY(dx, dy, a, b), n + 1;
      }
      PaintedAt(before, vrm[..], path, c);
    }
  }

  lemma {:induction false} Sizes()
    ensures WIDTH == 640 && HEIGHT == 480
  {
  }

  /** The pixel (x, y) is byte y * 640 + x. */
  lemma {:induction false} RowColumn(x: int, y: int)
    requires 0 <= x < 640
    ensures (y * 640 + x) % 640 == x && (y * 640 + x) / 640 == y
  {
  }

  lemma {:induction false} PaintedAt(before: seq<byte>, after: seq<byte>, path: seq<Point>, c: byte)
    requires Painted(before, after, path, c)
    ensures |before| == |after| == 640 * 480
    ensures forall i | 0 <= i < 640 * 480 ::
              after[i] == if exists q :: q in path && q.x % 0x1_0000 == i % 640 && q.y % 0x1_0000 == i / 640 then c
                          else before[i]
  {
    forall i | 0 <= i < 640 * 480
      ensures after[i] == if exists q :: q in path && q.x % 0x1_0000 == i % 640 && q.y % 0x1_0000 == i / 640 then c
                          else before[i]
    {
      var p := Point(i % 640, i / 640);
      assert OnScreen(p) && Index(p) == i;
      ShownWhere(path, p);
      hide Shown;
    }
  }

  lemma {:induction false} ShownWhere(path: seq<Point>, p: Point)
    ensures p in Shown(path) <==> exists q :: q in path && q.x % 0x1_0000 == p.x && q.y % 0x1_0000 == p.y
  {
    if p in Shown(path) {
      var q := ShownFrom(path, p);
    }
    if exists q :: q in path && q.x % 0x1_0000 == p.x && q.y % 0x1_0000 == p.y {
      var q :| q in path && q.x % 0x1_0000 == p.x && q.y % 0x1_0000 == p.y;
      ShownHas(path, q);
      assert Cut(q) == p;
    }
  }

  /** Where the ideal line passes half-way between two pixels, the pen stays in its row or column. */
  lemma {:induction false} Ties(p: Point)
    ensures IsLine([p, Point(p.x + 1, p.y), Point(p.x + 2, p.y + 1)], p, Point(p.x + 2, p.y + 1))
    ensures IsLine([p, Point(p.x, p.y + 1), Point(p.x + 1, p.y + 2)], p, Point(p.x + 1, p.y + 2))
  {
    assert OffsetOk(p, 0, p, Point(p.x + 2, p.y + 1)) && OffsetOk(p, 0, p, Point(p.x + 1, p.y + 2));
  }

  lemma {:induction false} LineStart(start: Point, end: Point, dx: int, dy: int)
    requires dx == Abs(end.x - start.x) && dy == Abs(end.y - start.y) && InRange(start) && InRange(end)
    ensures 0 <= dx <= 0x2000_0000 && 0 <= dy <= 0x2000_0000 && 0 <= Max(dx, dy) && Drawn(dx, dy, 0, 0, 0)
    ensures Error(dx, dy, 0, 0) == dx - dy && Pen(start, end, 0, 0) == start && Point(start.x, start.y) == start
    ensures Partial([], start, end, 0, start)
  {
  }

  lemma {:induction false} ScreenStart(before: seq<byte>, c: byte)
    requires |before| == WIDTH * HEIGHT
    ensures Painted(before, before, [], c)
  {
  }
}
