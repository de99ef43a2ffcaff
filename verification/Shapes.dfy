/** Raster shapes: Bresenham lines and midpoint circles, against closed forms. */
module Shapes {
  import opened Bytes

  datatype Placement = Placement(x: int, y: int, color: byte)

  function Abs(v: int): nat {
    if v < 0 then -v else v
  }

  function Sign(from: int, to: int): int {
    if from > to then -1 else 1
  }

  function Max(a: int, b: int): int {
    if a < b then b else a
  }

  function Min(a: int, b: int): int {
    if a < b then a else b
  }

  // ---- Lines ----

  /** The integer nearest to n/d, halves rounded up. */
  function Round(n: nat, d: nat): nat
    requires d > 0
  {
    (2 * n + d) / (2 * d)
  }

  lemma RoundIs(n: nat, d: nat, j: int)
    requires d > 0
    ensures j == Round(n, d) <==> WithinHalf(j * d - n, d)
  {
    var q := Round(n, d);
    var rest := (2 * n + d) % (2 * d);
    assert 2 * n + d == 2 * d * q + rest;
    assert 2 * d * q == 2 * (q * d);
    if WithinHalf(j * d - n, d) && j != q {
      if j < q {
        ProductStep(j, q, d);
      } else {
        ProductStep(q, j, d);
      }
    }
  }

  lemma ProductStep(a: int, b: int, c: nat)
    requires a < b
    ensures a * c + c <= b * c
  {
    assert b * c == a * c + c + (b - a - 1) * c;
  }

  /** The k-th point of the line: k steps along the longer axis, the other coordinate rounded to the
      nearest pixel of the true line. */
  function LineAt(x0: int, y0: int, x1: int, y1: int, k: nat): (int, int) {
    var a, b := Abs(x1 - x0), Abs(y1 - y0);
    if a >= b then (x0 + Sign(x0, x1) * k, y0 + Sign(y0, y1) * (if a == 0 then 0 else Round(k * b, a)))
    else (x0 + Sign(x0, x1) * Round(k * a, b), y0 + Sign(y0, y1) * k)
  }

  function Pos(from: int, to: int, steps: int): int {
    from + Sign(from, to) * steps
  }

  /** The tracer's error variable after `i` steps in x and `j` in y. */
  function ErrorTerm(a: int, b: int, i: int, j: int): int {
    (a - b) + (j * a - i * b)
  }

  /** The first `n` points are the line's. */
  ghost predicate LineSoFar(ps: seq<Placement>, x0: int, y0: int, x1: int, y1: int, c: byte) {
    forall k :: 0 <= k < |ps| ==> ps[k] == Placement(LineAt(x0, y0, x1, y1, k).0, LineAt(x0, y0, x1, y1, k).1, c)
  }

  /** Traces the line, inclusive of both ends. `i` and `j` count the steps taken on each axis. */
  method LinePoints(x0: int, y0: int, x1: int, y1: int, c: byte) returns (ps: seq<Placement>)
    ensures |ps| == Max(Abs(x1 - x0), Abs(y1 - y0)) + 1
    ensures LineSoFar(ps, x0, y0, x1, y1, c)
    ensures ps[0] == Placement(x0, y0, c) && ps[|ps| - 1] == Placement(x1, y1, c)
  {
    hide Pos, ErrorTerm, OnTrack, LineAt, LineSoFar;
    ps := [];
    ghost var a: int, b: int := Abs(x1 - x0), Abs(y1 - y0);
    ghost var i: int, j: int := 0, 0;
    var x, y := x0, y0;
    var dx: int, dy: int := Abs(x1 - x0), 0 - Abs(y1 - y0);
    var sx, sy := Sign(x0, x1), Sign(y0, y1);
    var e: int := dx + dy;
    LineStarts(x0, y0, x1, y1, c);
    while true
      invariant |ps| <= Max(a, b) && LineSoFar(ps, x0, y0, x1, y1, c)
      invariant x == Pos(x0, x1, i) && y == Pos(y0, y1, j) && e == ErrorTerm(a, b, i, j)
      invariant OnTrack(a, b, i, j, |ps|)
      invariant |ps| > 0 ==> ps[0] == Placement(x0, y0, c)
      invariant |ps| == 0 ==> x == x0 && y == y0
      decreases Max(a, b) - |ps|
    {
      ghost var k := |ps|;
      LineExtends(ps, x0, y0, x1, y1, c, i, j);
      TrackEnds(a, b, i, j, k);
      PosEnds(x0, x1, i);
      PosEnds(y0, y1, j);
      ps := ps + [Placement(x, y, c)];
      if x == x1 && y == y1 {
        return;
      }
      TrackSteps(a, b, i, j, k);
      PosSteps(x0, x1, i);
      PosSteps(y0, y1, j);
      var e2 := 2 * e;
      if e2 >= dy {
        e := e + dy;
        x := x + sx;
        i := i + 1;
      }
      if e2 <= dx {
        e := e + dx;
        y := y + sy;
        j := j + 1;
      }
    }
  }

  lemma PosSteps(from: int, to: int, steps: int)
    ensures Pos(from, to, steps + 1) == Pos(from, to, steps) + Sign(from, to)
  {}

  lemma PosEnds(from: int, to: int, steps: int)
    ensures Pos(from, to, steps) == to <==> steps == Abs(to - from)
  {}

  /** After k turns: k steps on the longer axis and, on the other, the nearest count, so that twice
      the cross error never exceeds the longer side. */
  ghost predicate OnTrack(a: nat, b: nat, i: int, j: int, k: nat) {
    if a >= b then i == k && (if a == 0 then j == 0 else WithinHalf(j * a - k * b, a))
    else j == k && WithinHalf(i * b - k * a, b)
  }

  predicate WithinHalf(error: int, side: int) {
    -side < 2 * error <= side
  }

  lemma LineStarts(x0: int, y0: int, x1: int, y1: int, c: byte)
    ensures var a, b := Abs(x1 - x0), Abs(y1 - y0);
            OnTrack(a, b, 0, 0, 0) && ErrorTerm(a, b, 0, 0) == a - b
    ensures LineSoFar([], x0, y0, x1, y1, c) && Pos(x0, x1, 0) == x0 && Pos(y0, y1, 0) == y0
  {}

  lemma LineExtends(ps: seq<Placement>, x0: int, y0: int, x1: int, y1: int, c: byte, i: int, j: int)
    requires OnTrack(Abs(x1 - x0), Abs(y1 - y0), i, j, |ps|) && LineSoFar(ps, x0, y0, x1, y1, c)
    ensures LineSoFar(ps + [Placement(Pos(x0, x1, i), Pos(y0, y1, j), c)], x0, y0, x1, y1, c)
  {
    TrackIsLine(x0, y0, x1, y1, i, j, |ps|);
  }

  lemma TrackIsLine(x0: int, y0: int, x1: int, y1: int, i: int, j: int, k: nat)
    requires OnTrack(Abs(x1 - x0), Abs(y1 - y0), i, j, k)
    ensures LineAt(x0, y0, x1, y1, k) == (Pos(x0, x1, i), Pos(y0, y1, j))
  {
    var a, b := Abs(x1 - x0), Abs(y1 - y0);
    if a >= b {
      if a > 0 {
        RoundIs(k * b, a, j);
      }
    } else {
      RoundIs(k * a, b, i);
    }
  }

  /** Half a pixel at most: on the longer axis the line takes every step, and off it the cross
      error of a traced point is at most half the longer side. */
  lemma LineWithinHalf(x0: int, y0: int, x1: int, y1: int, k: nat)
    requires k <= Max(Abs(x1 - x0), Abs(y1 - y0))
    ensures var a, b := Abs(x1 - x0), Abs(y1 - y0);
            var i, j := Abs(LineAt(x0, y0, x1, y1, k).0 - x0), Abs(LineAt(x0, y0, x1, y1, k).1 - y0);
            && (if a >= b then i == k else j == k)
            && 2 * Abs(j * a - i * b) <= Max(a, b)
  {
    var a, b := Abs(x1 - x0), Abs(y1 - y0);
    if a >= b {
      if a > 0 {
        var j := Round(k * b, a);
        RoundIs(k * b, a, j);
        SignTimes(x0, x1, k);
        SignTimes(y0, y1, j);
      }
    } else {
      var i := Round(k * a, b);
      RoundIs(k * a, b, i);
      SignTimes(x0, x1, i);
      SignTimes(y0, y1, k);
    }
  }

  lemma SignTimes(from: int, to: int, n: nat)
    ensures Abs(Sign(from, to) * n) == n
  {}

  /** On a tie the line is traced away from its start: where the true line passes midway between two pixels
      the farther one is painted. */
  lemma LineTie(x0: int, y0: int, x1: int, y1: int, k: nat, j: nat)
    requires k <= Max(Abs(x1 - x0), Abs(y1 - y0))
    ensures var a, b := Abs(x1 - x0), Abs(y1 - y0);
            && (a >= b && a > 0 && 2 * (k * b) == (2 * j + 1) * a ==> Abs(LineAt(x0, y0, x1, y1, k).1 - y0) == j + 1)
            && (a < b && 2 * (k * a) == (2 * j + 1) * b ==> Abs(LineAt(x0, y0, x1, y1, k).0 - x0) == j + 1)
  {
    var a, b := Abs(x1 - x0), Abs(y1 - y0);
    if a >= b && a > 0 && 2 * (k * b) == (2 * j + 1) * a {
      TieRounds(k * b, a, j);
      SignTimes(y0, y1, j + 1);
    } else if a < b && 2 * (k * a) == (2 * j + 1) * b {
      TieRounds(k * a, b, j);
      SignTimes(x0, x1, j + 1);
    }
  }

  lemma TieRounds(n: nat, d: nat, j: nat)
    requires d > 0 && 2 * n == (2 * j + 1) * d
    ensures Round(n, d) == j + 1
  {
    assert 2 * ((j + 1) * d) == 2 * n + d;
    RoundIs(n, d, j + 1);
  }

  /** The track reaches the far end exactly at the last step. */
  lemma TrackEnds(a: nat, b: nat, i: int, j: int, k: nat)
    requires OnTrack(a, b, i, j, k) && k <= Max(a, b)
    ensures k == Max(a, b) <==> i == a && j == b
  {
    if k == Max(a, b) {
      if a >= b && a > 0 {
        RoundIs(k * b, a, j);
        RoundIs(k * b, a, b);
      } else if a < b {
        RoundIs(k * a, b, i);
        RoundIs(k * a, b, a);
      }
    }
  }

  /** One turn, in terms of the cross error: the longer axis always advances, the other exactly
      when that keeps the error within half a pixel. */
  lemma ErrorSteps(long: int, short: int, error: int)
    requires 0 <= short <= long && 0 < long && WithinHalf(error, long)
    ensures 2 * (error + long - short) >= -short
    ensures WithinHalf(error - short + if 2 * (error + long - short) <= long then long else 0, long)
  {}

  lemma TrackSteps(a: nat, b: nat, i: int, j: int, k: nat)
    requires OnTrack(a, b, i, j, k) && k < Max(a, b)
    ensures var e := ErrorTerm(a, b, i, j);
            var i', j' := if 2 * e >= 0 - b then i + 1 else i, if 2 * e <= a then j + 1 else j;
            && OnTrack(a, b, i', j', k + 1)
            && e + (if 2 * e >= 0 - b then 0 - b else 0) + (if 2 * e <= a then a else 0) == ErrorTerm(a, b, i', j')
  {
    OneMore(j, a);
    OneMore(i, b);
    if a >= b {
      OneMore(k, b);
      ErrorSteps(a, b, j * a - k * b);
    } else {
      OneMore(k, a);
      SteepSteps(a, b, i * b - k * a);
    }
  }

  lemma OneMore(n: int, m: int)
    ensures (n + 1) * m == n * m + m
  {}

  lemma SteepSteps(short: int, long: int, error: int)
    requires 0 <= short < long && WithinHalf(error, long)
    ensures 2 * (short - long - error) <= short
    ensures WithinHalf(error - short + if 2 * (short - long - error) >= -long then long else 0, long)
  {}

  // ---- Circles ----

  /** How far a point lies off the circle, in squared units. */
  function Off(u: int, v: int, r: int): int {
    u * u + v * v - r * r
  }

  /** On the ring: measured along the longer axis, the point is the pixel nearest to the circle. */
  predicate OnRing(u: int, v: int, r: int) {
    Nearest(Max(Abs(u), Abs(v)), Off(u, v, r))
  }

  /** The squared offset of a pixel `m` out along an axis is nearer to the circle than its neighbours'. */
  predicate Nearest(m: int, off: int) {
    -m <= off <= m - 1
  }

  type Point = (int, int)

  /** The eight reflections of an octant point about a centre. */
  function Octants(cx: int, cy: int, x: int, y: int): set<Point> {
    {(cx + x, cy + y), (cx + y, cy + x), (cx - y, cy + x), (cx - x, cy + y),
     (cx - x, cy - y), (cx - y, cy - x), (cx + y, cy - x), (cx + x, cy - y)}
  }

  /** The ring's points whose shorter offset is below `y`. */
  ghost predicate Traced(s: set<Point>, cx: int, cy: int, r: int, y: int) {
    forall p :: p in s <==> OnRing(p.0 - cx, p.1 - cy, r) && Min(Abs(p.0 - cx), Abs(p.1 - cy)) < y
  }

  /** At most one pixel of a row of the octant is nearest to the circle. */
  lemma NearestUnique(x: nat, w: nat, y: nat, r: nat)
    requires Nearest(x, Off(x, y, r)) && Nearest(w, Off(w, y, r))
    ensures x == w
  {
    if x < w {
      SquareGap(x, w);
    } else if w < x {
      SquareGap(w, x);
    }
  }

  /** A pixel is on the ring if and only if, `m` out along its longer axis and `n` along the other, the circle
      crosses that row within half a pixel of it. */
  lemma RingIsNearest(u: int, v: int, r: nat)
    ensures var a, b := if u < 0 then -u else u, if v < 0 then -v else v;
            var m, n := if a < b then b else a, if a < b then a else b;
            OnRing(u, v, r) <==> (2 * m - 1) * (2 * m - 1) < 4 * (r * r - n * n) < (2 * m + 1) * (2 * m + 1)
  {
    hide Off, Nearest;
    var m, n := Max(Abs(u), Abs(v)), Min(Abs(u), Abs(v));
    OffOfAbs(u, v, r);
    NearestIsRounding(m, n, r);
  }

  lemma OffOfAbs(u: int, v: int, r: nat)
    ensures Off(u, v, r) == Off(Max(Abs(u), Abs(v)), Min(Abs(u), Abs(v)), r)
  {
    AbsSquare(u);
    AbsSquare(v);
  }

  lemma NearestIsRounding(m: nat, n: nat, r: nat)
    ensures Nearest(m, Off(m, n, r)) <==> (2 * m - 1) * (2 * m - 1) < 4 * (r * r - n * n) < (2 * m + 1) * (2 * m + 1)
  {
    assert (2 * m - 1) * (2 * m - 1) == 4 * (m * m) - 4 * m + 1;
    assert (2 * m + 1) * (2 * m + 1) == 4 * (m * m) + 4 * m + 1;
  }

  lemma SquareGap(x: nat, w: nat)
    requires x < w
    ensures x * x + x <= w * w - w
  {
    assert w * w - w - (x * x + x) == (w - x - 1) * (w + x) by {
      assert (w - x) * (w + x) == w * w - x * x;
    }
    assert (w - x - 1) * (w + x) >= 0;
  }

  lemma OctantsOnRing(cx: int, cy: int, r: nat, x: nat, y: nat, p: Point)
    requires y <= x && Nearest(x, Off(x, y, r))
    ensures p in Octants(cx, cy, x, y)
            <==> OnRing(p.0 - cx, p.1 - cy, r) && Min(Abs(p.0 - cx), Abs(p.1 - cy)) == y
  {
    var u, v := Abs(p.0 - cx), Abs(p.1 - cy);
    AbsSquare(p.0 - cx);
    AbsSquare(p.1 - cy);
    if OnRing(p.0 - cx, p.1 - cy, r) && Min(u, v) == y {
      NearestUnique(x, Max(u, v), y, r);
    }
  }

  lemma AbsSquare(u: int)
    ensures Abs(u) * Abs(u) == u * u
  {}

  /** Once the walk has left the octant, no nearest pixel remains beyond it. */
  lemma NothingBeyond(x: int, y: nat, r: nat, u: nat, v: nat)
    requires -1 <= x < y && -x <= Off(x, y, r) && y <= v <= u
    ensures !Nearest(u, Off(u, v, r))
  {
    SquareGrows(y, v);
    if x >= 0 {
      SquareGap(x, u);
    } else {
      if u > 0 {
        SquareGap(0, u);
      }
    }
  }

  lemma SquareGrows(y: nat, v: nat)
    requires y <= v
    ensures y * y <= v * v
  {
    assert v * v == y * y + (v - y) * (v + y);
  }

  /** Traces the outline by the midpoint walk: the result is, in scanline order and without
      duplicates, exactly the ring's pixels on rows not above the origin. */
  method CirclePoints(cx: int, cy: int, r: nat, c: byte) returns (ps: seq<Placement>)
    requires r >= 1
    ensures Scanline(ps)
    ensures forall q :: q in ps <==> q.color == c && q.y >= 0 && OnRing(q.x - cx, q.y - cy, r)
  {
    hide Off, Octants, OnRing, Scanline;
    var points: set<Point> := {};
    var x, y, err := r as int, 0, 1 - r as int;
    CircleStarts(cx, cy, r);
    while x >= y
      invariant 0 <= y && -1 <= x && y <= x + 2
      invariant err == Off(x, y, r) + 2 * y + 1 - x
      invariant -x <= Off(x, y, r) && (x >= y ==> Off(x, y, r) <= x - 1)
      invariant Traced(points, cx, cy, r, y)
      decreases x - y
    {
      TracedMore(points, cx, cy, r, x, y);
      CircleStep(x, y, r, err);
      points := points + Octants(cx, cy, x, y);
      y := y + 1;
      if err < 0 {
        err := err + 2 * y + 1;
      } else {
        x := x - 1;
        err := err + 2 * (y - x) + 1;
      }
    }
    ps := SetToScanline(points, c);
    AllTraced(points, cx, cy, r, x, y);
  }

  /** When the walk leaves the octant the whole ring has been traced. */
  lemma AllTraced(points: set<Point>, cx: int, cy: int, r: nat, x: int, y: nat)
    requires -1 <= x < y && -x <= Off(x, y, r) && Traced(points, cx, cy, r, y)
    ensures forall q: Placement :: (q.x, q.y) in points <==> OnRing(q.x - cx, q.y - cy, r)
  {
    forall q: Placement
      ensures (q.x, q.y) in points <==> OnRing(q.x - cx, q.y - cy, r)
    {
      var u, v := Abs(q.x - cx), Abs(q.y - cy);
      AbsSquare(q.x - cx);
      AbsSquare(q.y - cy);
      if Min(u, v) >= y {
        NothingBeyond(x, y, r, Max(u, v), Min(u, v));
      }
    }
  }

  lemma CircleStarts(cx: int, cy: int, r: nat)
    requires r >= 1
    ensures Off(r, 0, r) == 0 && Traced({}, cx, cy, r, 0)
  {}

  /** The error term stays the squared offset of the next midpoint, and the walk stays nearest. */
  lemma CircleStep(x: int, y: nat, r: nat, err: int)
    requires y <= x && err == Off(x, y, r) + 2 * y + 1 - x && Nearest(x, Off(x, y, r))
    ensures var y' := y + 1;
            var x' := if err < 0 then x else x - 1;
            && (if err < 0 then err + 2 * y' + 1 else err + 2 * (y' - x') + 1) == Off(x', y', r) + 2 * y' + 1 - x'
            && -x' <= Off(x', y', r) && (x' >= y' ==> Off(x', y', r) <= x' - 1)
  {
    assert (y + 1) * (y + 1) == y * y + 2 * y + 1;
    assert (x - 1) * (x - 1) == x * x - 2 * x + 1;
  }

  lemma TracedMore(s: set<Point>, cx: int, cy: int, r: nat, x: nat, y: nat)
    requires Traced(s, cx, cy, r, y) && y <= x && Nearest(x, Off(x, y, r))
    ensures Traced(s + Octants(cx, cy, x, y), cx, cy, r, y + 1)
  {
    forall p: Point
      ensures p in s + Octants(cx, cy, x, y)
              <==> OnRing(p.0 - cx, p.1 - cy, r) && Min(Abs(p.0 - cx), Abs(p.1 - cy)) < y + 1
    {
      OctantsOnRing(cx, cy, r, x, y, p);
    }
  }

  // ---- Scanline order ----

  predicate Before(p: Placement, q: Placement) {
    p.y < q.y || (p.y == q.y && p.x < q.x)
  }

  /** Top row first, left to right, no cell twice. */
  ghost predicate Scanline(ps: seq<Placement>) {
    forall i, j :: 0 <= i < j < |ps| ==> Before(ps[i], ps[j])
  }

  /** Flattens a set of points, dropping rows above the origin. */
  method SetToScanline(points: set<Point>, c: byte) returns (ps: seq<Placement>)
    ensures Scanline(ps)
    ensures forall q :: q in ps <==> q.color == c && q.y >= 0 && (q.x, q.y) in points
  {
    ps := [];
    if points == {} {
      return;
    }
    var minX, maxX, maxY := Extent(points);
    var y := 0;
    while y <= maxY
      invariant 0 <= y && Scanline(ps)
      invariant forall q :: q in ps <==> q.color == c && 0 <= q.y < y && (q.x, q.y) in points
      decreases maxY - y
    {
      ghost var above := ps;
      var x := minX;
      while x <= maxX
        invariant minX <= x && Scanline(ps)
        invariant forall q :: q in ps <==> q in above || (q.color == c && q.y == y && q.x < x && (q.x, q.y) in points)
        decreases maxX - x
      {
        if (x, y) in points {
          ghost var before := ps;
          ps := ps + [Placement(x, y, c)];
          assert forall q :: q in ps <==> q in before || q == Placement(x, y, c);
        }
        x := x + 1;
      }
      y := y + 1;
    }
  }

  /** The bounds of a set; the code's starting values are beyond any drawing. */
  method Extent(points: set<Point>) returns (minX: int, maxX: int, maxY: int)
    ensures forall p :: p in points ==> minX <= p.0 <= maxX && p.1 <= maxY
  {
    minX, maxX, maxY := 0x4000_0000, -0x4000_0000, -0x4000_0000;
    var todo := points;
    while todo != {}
      invariant todo <= points
      invariant forall p :: p in points && p !in todo ==> minX <= p.0 <= maxX && p.1 <= maxY
      decreases todo
    {
      var p :| p in todo;
      if p.0 < minX {
        minX := p.0;
      }
      if p.0 > maxX {
        maxX := p.0;
      }
      if p.1 > maxY {
        maxY := p.1;
      }
      todo := todo - {p};
    }
  }
}
