/**
  * The quantities of a course, each told by the law it obeys: interpolation, smoothing, sample
  * positions, the curvature of the circle through three points, speed caps and the fastest profile.
  */
module CourseLaws {
  import opened Basics
  import opened Bisect
  import opened PlaneGeometry
  import opened CourseGeometry
  import opened CourseSmoothing
  import opened SpeedSweep
  import opened CourseProfile

  // ----- interpolation

  /** Between two points the path is cut in the proportion of the arc lengths, in all three coordinates. */
  lemma InterpolationIsProportional(points: Path, d: seq<real>, i: nat, s: real)
    requires |points| == |d| && i + 1 < |d| && Increasing(d) && Sorted(d) && d[i] <= s <= d[i + 1]
    ensures var r, p, q := Interpolate(points, d, s), points[i], points[i + 1];
            var length, part := d[i + 1] - d[i], s - d[i];
            && length * (r.x - p.x) == part * (q.x - p.x)
            && length * (r.y - p.y) == part * (q.y - p.y)
            && length * (r.z - p.z) == part * (q.z - p.z)
  {
    hide Interpolate;
    OnSegment(points, d, i, s);
    var length, part := d[i + 1] - d[i], s - d[i];
    var p, q := points[i], points[i + 1];
    Proportion(p.x, q.x, length, part);
    Proportion(p.y, q.y, length, part);
    Proportion(p.z, q.z, length, part);
  }

  lemma Proportion(a: real, b: real, length: real, part: real)
    requires length > 0.0
    ensures length * (Lerp(a, b, part / length) - a) == part * (b - a)
  {
    var ratio := part / length;
    assert ratio * length == part;
    assert length * ((b - a) * ratio) == (ratio * length) * (b - a);
  }

  // ----- sample positions

  /**
    * The samples are the multiples of the interval and then the end of the path, which replaces
    * the last multiple where that is at most 1e-6 before it.
    */
  lemma TargetsAreMultiples(total: real, interval: real)
    requires interval > 0.0 && total >= 0.0
    ensures var t := Targets(total, interval);
            var last := |t| - 1;
            && (forall k :: 0 <= k < last ==> t[k] == k as real * interval)
            && t[last] == total
            && var before, at, after := (last - 1) as real * interval, last as real * interval, (last + 1) as real * interval;
               (at <= total < after && total - at <= 0.000001) || before + 0.000001 < total < at
  {
    hide Steps;
    FloorBrackets(total, interval);
    var steps := Steps(total, interval);
    MultiplesStep(steps, interval);
    if steps > 0 { MultiplesStep(steps - 1, interval); }
  }

  // ----- smoothing

  /**
    * What smoothing makes of a sample: with a whole window around it and a positive offset, it
    * moves towards the mean of the unsmoothed window, all the way if that is within the offset and
    * else exactly by the offset; any other sample stays.
    */
  lemma SmoothExactly(sqrt: Sqrt, points: Path, radius: int, maxOffset: real, i: nat) returns (mean: Point, share: real)
    requires IsSqrt(sqrt) && i < |points|
    ensures var r, p := Smooth(sqrt, points, radius, maxOffset)[i], points[i];
            if radius > 0 && maxOffset > 0.0 && radius <= i < |points| - radius then
              var n, sum := (2 * radius + 1) as real, WindowSum(points, i - radius, i + radius + 1);
              var apart := Square3(mean, p);
              && n * mean.x == sum.x && n * mean.y == sum.y && n * mean.z == sum.z
              && r == Add(p, Scale(Minus(mean, p), share))
              && (apart <= maxOffset * maxOffset ==> share == 1.0)
              && (apart > maxOffset * maxOffset ==> 0.0 < share < 1.0 && (share * share) * apart == maxOffset * maxOffset)
            else r == p
  {
    hide WindowSum, Square3, Distance3, Add, Scale, Minus;
    mean, share := ORIGIN, 1.0;
    if radius > 0 && maxOffset > 0.0 && radius <= i < |points| - radius {
      mean := Average(points, i - radius, i + radius + 1);
      var magnitude := Distance3(sqrt, mean, points[i]);
      share := PullScale(magnitude, maxOffset);
      MeanOfSum(WindowSum(points, i - radius, i + radius + 1), (2 * radius + 1) as real);
      Distance3Squared(sqrt, mean, points[i]);
      ShareExactly(magnitude, maxOffset, Square3(mean, points[i]));
    }
  }

  lemma MeanOfSum(sum: Point, n: real)
    requires n > 0.0
    ensures n * (sum.x / n) == sum.x && n * (sum.y / n) == sum.y && n * (sum.z / n) == sum.z
  {
  }

  lemma ShareExactly(magnitude: real, maxOffset: real, apart: real)
    requires maxOffset > 0.0 && magnitude >= 0.0 && magnitude * magnitude == apart
    ensures var share := PullScale(magnitude, maxOffset);
            && (apart <= maxOffset * maxOffset ==> share == 1.0)
            && (apart > maxOffset * maxOffset ==> 0.0 < share < 1.0 && (share * share) * apart == maxOffset * maxOffset)
  {
    if apart <= maxOffset * maxOffset {
      SquareOrder(magnitude, maxOffset);
    } else {
      if magnitude <= maxOffset { SquareGrows(magnitude, maxOffset); }
      var share := maxOffset / magnitude;
      assert share * magnitude == maxOffset;
      ShareBounds(share, magnitude, maxOffset);
      ProductSquare(share, magnitude);
    }
  }

  lemma SquareGrows(x: real, y: real)
    requires 0.0 <= x <= y
    ensures x * x <= y * y
  {
    NonNegativeProduct(y - x, y + x);
    assert (y - x) * (y + x) == y * y - x * x;
  }

  lemma ShareBounds(share: real, magnitude: real, offset: real)
    requires 0.0 < offset < magnitude && share * magnitude == offset
    ensures 0.0 < share < 1.0
  {
    assert (share - 1.0) * magnitude == share * magnitude - magnitude;
    if share <= 0.0 { NonNegativeProduct(-share, magnitude); }
    if share >= 1.0 { NonNegativeProduct(share - 1.0, magnitude); }
  }

  // ----- curvature

  /**
    * On a circle the curvature through three of its points, none of them closer than 1e-9, is one
    * over the radius: positive exactly if they turn left.
    */
  lemma CurvatureOfCircle(sqrt: Sqrt, p: Point, c: Point, f: Point, center: Point, radius: real)
    requires IsSqrt(sqrt) && radius > 0.0
    requires SquareXY(p, center) == radius * radius
    requires SquareXY(c, center) == radius * radius && SquareXY(f, center) == radius * radius
    requires DistanceXY(sqrt, p, c) >= 0.000000001 && DistanceXY(sqrt, c, f) >= 0.000000001
    requires DistanceXY(sqrt, p, f) >= 0.000000001
    ensures Abs(CurvatureOf(sqrt, p, c, f)) * radius == 1.0
    ensures CurvatureOf(sqrt, p, c, f) > 0.0 <==> Cross(p, c, f) > 0.0
  {
    hide SquareXY, Cross, IsSqrt, CurvatureOf;
    CurvatureFormula(sqrt, p, c, f);
    var a, b, d, k := DistanceXY(sqrt, p, c), DistanceXY(sqrt, c, f), DistanceXY(sqrt, p, f), Cross(p, c, f);
    DistanceSquared(sqrt, p, c);
    DistanceSquared(sqrt, c, f);
    DistanceSquared(sqrt, p, f);
    CircleLaw(p, c, f, center, radius * radius);
    SidesProduct(a, b, d, SquareXY(p, c), SquareXY(c, f), SquareXY(p, f));
    hide DistanceXY;
    RadiusLaw(a, b, d, k, radius, a * b * d, CurvatureOf(sqrt, p, c, f));
  }

  lemma CurvatureFormula(sqrt: Sqrt, p: Point, c: Point, f: Point)
    requires DistanceXY(sqrt, p, c) >= 0.000000001 && DistanceXY(sqrt, c, f) >= 0.000000001
    requires DistanceXY(sqrt, p, f) >= 0.000000001
    ensures var sides := DistanceXY(sqrt, p, c) * DistanceXY(sqrt, c, f) * DistanceXY(sqrt, p, f);
            sides > 0.0 && CurvatureOf(sqrt, p, c, f) * sides == 2.0 * Cross(p, c, f)
  {
    hide DistanceXY, Cross;
    Positive(DistanceXY(sqrt, p, c), DistanceXY(sqrt, c, f));
    Positive(DistanceXY(sqrt, p, c) * DistanceXY(sqrt, c, f), DistanceXY(sqrt, p, f));
  }

  lemma SidesProduct(a: real, b: real, d: real, a2: real, b2: real, d2: real)
    requires a * a == a2 && b * b == b2 && d * d == d2
    ensures (a * a) * (b * b) * (d * d) == a2 * b2 * d2
  {
  }

  lemma RadiusLaw(a: real, b: real, d: real, k: real, radius: real, sides: real, curvature: real)
    requires a > 0.0 && b > 0.0 && d > 0.0 && radius > 0.0 && sides == a * b * d && curvature * sides == 2.0 * k
    requires 4.0 * ((radius * radius) * (k * k)) == (a * a) * (b * b) * (d * d)
    ensures Abs(curvature) * radius == 1.0 && (curvature > 0.0 <==> k > 0.0)
  {
    Positive(a, b);
    Positive(a * b, d);
    SquareOfSides(a, b, d, 2.0 * Abs(k) * radius, radius, k);
    SignOfProduct(curvature, sides, 2.0 * k);
    RatioOfEqual(Abs(curvature), Abs(2.0 * k), sides, radius);
  }

  /** Twice the area times the radius, doubled, is the product of the sides: in squares. */
  lemma CircleLaw(p: Point, c: Point, f: Point, center: Point, r2: real)
    requires SquareXY(p, center) == r2 && SquareXY(c, center) == r2 && SquareXY(f, center) == r2
    ensures 4.0 * (r2 * (Cross(p, c, f) * Cross(p, c, f))) == SquareXY(p, c) * SquareXY(c, f) * SquareXY(p, f)
  {
    hide SquareXY, Cross;
    var px, py, qx, qy, sx, sy := p.x - center.x, p.y - center.y, c.x - center.x, c.y - center.y, f.x - center.x, f.y - center.y;
    var ux, uy, vx, vy := c.x - p.x, c.y - p.y, f.x - c.x, f.y - c.y;
    var w := ux * vx + uy * vy;
    OnCircle(p, center, px, py, r2);
    OnCircle(c, center, qx, qy, r2);
    OnCircle(f, center, sx, sy, r2);
    SameSides(p, c, f, ux, uy, vx, vy, Cross(p, c, f), SquareXY(p, c), SquareXY(c, f), w);
    CircleSteps(px, py, qx, qy, sx, sy, ux, uy, vx, vy, r2, Cross(p, c, f), SquareXY(p, c), SquareXY(c, f), w, SquareXY(p, f));
  }

  lemma SameSides(p: Point, c: Point, f: Point, ux: real, uy: real, vx: real, vy: real, k: real, a2: real, b2: real, w: real)
    requires ux == c.x - p.x && uy == c.y - p.y && vx == f.x - c.x && vy == f.y - c.y
    requires k == Cross(p, c, f) && a2 == SquareXY(p, c) && b2 == SquareXY(c, f) && w == ux * vx + uy * vy
    ensures k == ux * vy - uy * vx && a2 == ux * ux + uy * uy && b2 == vx * vx + vy * vy
    ensures SquareXY(p, f) == a2 + b2 + 2.0 * w
  {
    hide SquareXY, Cross;
    CrossOfSteps(p, c, f, ux, uy, vx, vy);
    SquaresOfSteps(p, c, f, ux, uy, vx, vy);
  }

  lemma OnCircle(p: Point, center: Point, x: real, y: real, r2: real)
    requires SquareXY(p, center) == r2 && x == p.x - center.x && y == p.y - center.y
    ensures x * x + y * y == r2
  {
  }

  /** From a point of a circle, two steps that end on the circle again; `k`, `a2`, `b2` and `w` are their products. */
  lemma CircleSteps(px: real, py: real, qx: real, qy: real, sx: real, sy: real, ux: real, uy: real, vx: real, vy: real,
                    r2: real, k: real, a2: real, b2: real, w: real, d2: real)
    requires px * px + py * py == r2 && qx * qx + qy * qy == r2 && sx * sx + sy * sy == r2
    requires qx == px + ux && qy == py + uy && sx == qx + vx && sy == qy + vy
    requires k == ux * vy - uy * vx && a2 == ux * ux + uy * uy && b2 == vx * vx + vy * vy && w == ux * vx + uy * vy
    requires d2 == a2 + b2 + 2.0 * w
    ensures 4.0 * (r2 * (k * k)) == a2 * b2 * d2
  {
    var s, t := px * ux + py * uy, px * vx + py * vy;
    ChordsOf(px, py, qx, qy, sx, sy, ux, uy, vx, vy, r2);
    AreaOf(px, py, ux, uy, vx, vy, k, a2, b2, w, s, t, r2);
    Assembled(r2, k, s, t, a2, b2, w);
  }

  lemma ChordsOf(px: real, py: real, qx: real, qy: real, sx: real, sy: real, ux: real, uy: real, vx: real, vy: real, r2: real)
    requires px * px + py * py == r2 && qx * qx + qy * qy == r2 && sx * sx + sy * sy == r2
    requires qx == px + ux && qy == py + uy && sx == qx + vx && sy == qy + vy
    ensures 2.0 * (px * ux + py * uy) == -(ux * ux + uy * uy)
    ensures 2.0 * (px * vx + py * vy) == -(vx * vx + vy * vy) - 2.0 * (ux * vx + uy * vy)
  {
    Chord(px, py, ux, uy, r2, qx, qy);
    Chord(qx, qy, vx, vy, r2, sx, sy);
    DotOfSum(px, py, ux, uy, vx, vy);
  }

  lemma AreaOf(px: real, py: real, ux: real, uy: real, vx: real, vy: real, k: real, a2: real, b2: real, w: real,
               s: real, t: real, r2: real)
    requires k == ux * vy - uy * vx && a2 == ux * ux + uy * uy && b2 == vx * vx + vy * vy && w == ux * vx + uy * vy
    requires s == px * ux + py * uy && t == px * vx + py * vy && r2 == px * px + py * py
    ensures r2 * (k * k) == (s * s) * b2 + (t * t) * a2 - 2.0 * ((s * t) * w)
  {
    Turned(px, py, ux, uy, vx, vy, k, s, t);
    Expanded(s, t, ux, uy, vx, vy, a2, b2, w);
    SameFactor(px * px + py * py, r2, k * k);
  }

  lemma DotOfSum(px: real, py: real, ux: real, uy: real, vx: real, vy: real)
    ensures (px + ux) * vx + (py + uy) * vy == (px * vx + py * vy) + (ux * vx + uy * vy)
  {
  }

  lemma CrossOfSteps(p: Point, c: Point, f: Point, ux: real, uy: real, vx: real, vy: real)
    requires ux == c.x - p.x && uy == c.y - p.y && vx == f.x - c.x && vy == f.y - c.y
    ensures Cross(p, c, f) == ux * vy - uy * vx
  {
    assert f.x - p.x == ux + vx && f.y - p.y == uy + vy;
    assert ux * (uy + vy) - uy * (ux + vx) == ux * vy - uy * vx;
  }

  lemma SquaresOfSteps(p: Point, c: Point, f: Point, ux: real, uy: real, vx: real, vy: real)
    requires ux == c.x - p.x && uy == c.y - p.y && vx == f.x - c.x && vy == f.y - c.y
    ensures SquareXY(p, c) == ux * ux + uy * uy && SquareXY(c, f) == vx * vx + vy * vy
    ensures SquareXY(p, f) == (ux * ux + uy * uy) + (vx * vx + vy * vy) + 2.0 * (ux * vx + uy * vy)
  {
    OppositeSquare(p.x, c.x);
    OppositeSquare(p.y, c.y);
    OppositeSquare(c.x, f.x);
    OppositeSquare(c.y, f.y);
    OppositeSquare(p.x, f.x);
    OppositeSquare(p.y, f.y);
    SquareOfSum(ux, vx);
    SquareOfSum(uy, vy);
    assert f.x - p.x == ux + vx && f.y - p.y == uy + vy;
  }

  lemma SquareOfSum(x: real, y: real)
    ensures (x + y) * (x + y) == x * x + y * y + 2.0 * (x * y)
  {
  }

  /** A step from one point of a circle to another. */
  lemma Chord(x: real, y: real, dx: real, dy: real, r2: real, nextX: real, nextY: real)
    requires x * x + y * y == r2 && nextX * nextX + nextY * nextY == r2 && nextX == x + dx && nextY == y + dy
    ensures 2.0 * (x * dx + y * dy) == -(dx * dx + dy * dy)
  {
    SquareOfSum(x, dx);
    SquareOfSum(y, dy);
  }

  lemma Turned(px: real, py: real, ux: real, uy: real, vx: real, vy: real, k: real, s: real, t: real)
    requires k == ux * vy - uy * vx && s == px * ux + py * uy && t == px * vx + py * vy
    ensures (s * vx - t * ux) * (s * vx - t * ux) + (s * vy - t * uy) * (s * vy - t * uy) == (px * px + py * py) * (k * k)
  {
    calc {
      s * vx - t * ux;
      px * (ux * vx) + py * (uy * vx) - px * (vx * ux) - py * (vy * ux);
      -(py * k);
    }
    calc {
      s * vy - t * uy;
      px * (ux * vy) + py * (uy * vy) - px * (vx * uy) - py * (vy * uy);
      px * k;
    }
    SquaredProduct(py, k);
    SquaredProduct(px, k);
    assert (px * px + py * py) * (k * k) == (px * px) * (k * k) + (py * py) * (k * k);
  }

  lemma SquaredProduct(x: real, y: real)
    ensures (x * y) * (x * y) == (x * x) * (y * y) && (-(x * y)) * (-(x * y)) == (x * x) * (y * y)
  {
    ProductSquare(x, y);
    NegatedSquare(x * y);
  }

  lemma Expanded(s: real, t: real, ux: real, uy: real, vx: real, vy: real, a2: real, b2: real, w: real)
    requires a2 == ux * ux + uy * uy && b2 == vx * vx + vy * vy && w == ux * vx + uy * vy
    ensures (s * vx - t * ux) * (s * vx - t * ux) + (s * vy - t * uy) * (s * vy - t * uy)
         == (s * s) * b2 + (t * t) * a2 - 2.0 * ((s * t) * w)
  {
    AxisExpanded(s, t, ux, vx);
    AxisExpanded(s, t, uy, vy);
    assert (s * s) * b2 == (s * s) * (vx * vx) + (s * s) * (vy * vy);
    assert (t * t) * a2 == (t * t) * (ux * ux) + (t * t) * (uy * uy);
    assert (s * t) * w == (s * t) * (ux * vx) + (s * t) * (uy * vy);
  }

  lemma AxisExpanded(s: real, t: real, u: real, v: real)
    ensures (s * v - t * u) * (s * v - t * u) == (s * s) * (v * v) + (t * t) * (u * u) - 2.0 * ((s * t) * (u * v))
  {
    var x, y := s * v, t * u;
    assert (x - y) * (x - y) == x * x + y * y - 2.0 * (x * y);
    ProductSquare(s, v);
    ProductSquare(t, u);
    assert x * y == (s * t) * (u * v);
  }

  lemma Assembled(r2: real, k: real, s: real, t: real, a2: real, b2: real, w: real)
    requires 2.0 * s == -a2 && 2.0 * t == -b2 - 2.0 * w
    requires r2 * (k * k) == (s * s) * b2 + (t * t) * a2 - 2.0 * ((s * t) * w)
    ensures 4.0 * (r2 * (k * k)) == a2 * b2 * (a2 + b2 + 2.0 * w)
  {
    var m := b2 + 2.0 * w;
    QuarterProducts(s, t, a2, m);
    calc {
      4.0 * (r2 * (k * k));
      (a2 * a2) * b2 + (m * m) * a2 - 2.0 * ((a2 * m) * w);
      a2 * (a2 * b2 + m * m - 2.0 * (m * w));
      a2 * (a2 * b2 + m * (m - 2.0 * w));
      a2 * (a2 * b2 + m * b2);
      a2 * b2 * (a2 + m);
    }
  }

  lemma QuarterProducts(s: real, t: real, a2: real, m: real)
    requires 2.0 * s == -a2 && 2.0 * t == -m
    ensures 4.0 * (s * s) == a2 * a2 && 4.0 * (t * t) == m * m && 4.0 * (s * t) == a2 * m
  {
    assert s == -0.5 * a2 && t == -0.5 * m;
  }

  lemma SquareOfSides(a: real, b: real, d: real, x: real, radius: real, k: real)
    requires a > 0.0 && b > 0.0 && d > 0.0 && radius > 0.0 && x == 2.0 * Abs(k) * radius
    requires 4.0 * ((radius * radius) * (k * k)) == (a * a) * (b * b) * (d * d)
    ensures x == a * b * d
  {
    Positive(a, b);
    Positive(a * b, d);
    NonNegativeProduct(Abs(k), radius);
    ProductSquare(a, b);
    ProductSquare(a * b, d);
    ProductSquare(Abs(k), radius);
    assert Abs(k) * Abs(k) == k * k by { NegatedSquare(k); }
    assert x == 2.0 * (Abs(k) * radius);
    assert x * x == 4.0 * ((Abs(k) * radius) * (Abs(k) * radius));
    SquareOrder(x, a * b * d);
    SquareOrder(a * b * d, x);
  }

  lemma SignOfProduct(q: real, y: real, x: real)
    requires y > 0.0 && q * y == x
    ensures (q > 0.0 <==> x > 0.0) && Abs(q) * y == Abs(x)
  {
    assert (-q) * y == -(q * y);
    if q > 0.0 { Positive(q, y); }
    if q < 0.0 { Positive(-q, y); }
  }

  lemma SameFactor(x: real, y: real, k: real)
    requires x == y
    ensures x * k == y * k
  {
  }

  lemma RatioOfEqual(q: real, x: real, y: real, radius: real)
    requires y > 0.0 && x * radius == y && q * y == x
    ensures q * radius == 1.0
  {
    var e := q * radius - 1.0;
    Cleared(q, x, y, radius, e);
    if e > 0.0 { Positive(e, y); }
    if e < 0.0 { Positive(-e, y); }
  }

  lemma Cleared(q: real, x: real, y: real, radius: real, e: real)
    requires x * radius == y && q * y == x && e == q * radius - 1.0
    ensures e * y == 0.0 && (-e) * y == 0.0
  {
    calc {
      e * y;
      (q * y) * radius - y;
      x * radius - y;
      0.0;
    }
    assert (-e) * y == -(e * y);
  }

  // ----- speed caps

  /** The cap is the greatest speed within the limit whose lateral acceleration is within its limit, where the road bends at all. */
  lemma CapExactly(sqrt: Sqrt, limits: CourseLimits, curvature: real, v: real)
    requires IsSqrt(sqrt) && v >= 0.0 && (Abs(curvature) > 0.000000001 ==> limits.maxLateralAccel >= 0.0)
    ensures v <= CapSpeed(sqrt, limits, curvature) <==>
            v <= Max(0.0, limits.maxSpeed)
            && (v > 0.0 && Abs(curvature) > 0.000000001 ==> v * v * Abs(curvature) <= limits.maxLateralAccel)
  {
    if Abs(curvature) > 0.000000001 {
      var k := Abs(curvature);
      var x := limits.maxLateralAccel / k;
      QuotientTimes(limits.maxLateralAccel, k);
      RootBounds(sqrt, v, x);
      TimesBounds(v * v, x, k);
    }
  }

  lemma RootBounds(sqrt: Sqrt, v: real, x: real)
    requires IsSqrt(sqrt) && v >= 0.0 && x >= 0.0
    ensures v <= sqrt(x) <==> v * v <= x
  {
    if v <= sqrt(x) { SquareGrows(v, sqrt(x)); } else { if v * v <= x { SquareOrder(v, sqrt(x)); } }
  }

  lemma TimesBounds(x: real, y: real, k: real)
    requires k > 0.0
    ensures x <= y <==> x * k <= y * k
  {
    assert (y - x) * k == y * k - x * k && (x - y) * k == x * k - y * k;
    if x <= y { NonNegativeProduct(y - x, k); } else { Positive(x - y, k); }
  }

  /** A built profile starts and ends at a standstill, and in between from these caps. */
  lemma EndedCapsExactly(sqrt: Sqrt, limits: CourseLimits, curvatures: seq<real>, i: nat)
    requires CapsDefined(limits, curvatures) && i < |curvatures|
    ensures EndedCaps(sqrt, limits, curvatures)[i]
         == if i == 0 || i == |curvatures| - 1 then 0.0 else CapSpeed(sqrt, limits, curvatures[i])
  {
  }

  // ----- the fastest profile

  /** The acceleration between two squared speeds over a distance. */
  function Between(before: real, after: real, distance: real): real
    requires distance > 0.0
  {
    (after - before) / (2.0 * distance)
  }

  /** A profile of squared speeds that a vehicle can drive: standing at both ends, below the caps, within both accelerations. */
  predicate Drivable(sqrt: Sqrt, points: Path, curvatures: seq<real>, limits: CourseLimits, p: Profile)
    requires |points| == |curvatures| > 0 && CapsDefined(limits, curvatures) && PositiveSegments(sqrt, points)
  {
    && |p| == |points| && p[0] == 0.0 && p[|p| - 1] == 0.0
    && (forall i :: 0 <= i < |p| ==> p[i] <= Sq(CapSpeed(sqrt, limits, curvatures[i])))
    && (forall i :: 0 <= i < |p| - 1 ==>
          -Abs(limits.maxDecel) <= Between(p[i], p[i + 1], DistanceXY(sqrt, points[i], points[i + 1])) <= limits.maxAccel)
  }

  lemma WithinIsFeasible(before: real, after: real, distance: real, accel: real, decel: real)
    requires distance > 0.0
    ensures -decel <= Between(before, after, distance) <= accel <==>
            after <= before + 2.0 * accel * distance && before <= after + 2.0 * decel * distance
  {
    var a, twice := Between(before, after, distance), 2.0 * distance;
    assert a * twice == after - before;
    TimesBounds(a, accel, twice);
    TimesBounds(-decel, a, twice);
    assert accel * twice == 2.0 * accel * distance && (-decel) * twice == -(2.0 * decel * distance);
  }

  /** The built profile can be driven, and no profile that can be driven is faster anywhere. */
  lemma BuiltProfileIsFastest(sqrt: Sqrt, points: Path, curvatures: seq<real>, limits: CourseLimits, p: Profile)
    requires IsSqrt(sqrt) && |points| == |curvatures| > 0 && CapsDefined(limits, curvatures)
    requires PositiveSegments(sqrt, points) && limits.maxAccel >= 0.0
    ensures var q := SquaredProfile(sqrt, points, curvatures, limits);
            && Drivable(sqrt, points, curvatures, limits, q)
            && (Drivable(sqrt, points, curvatures, limits, p) ==> forall i :: 0 <= i < |p| ==> p[i] <= q[i])
  {
    hide SquaredProfile, DistanceXY, CapSpeed, Sq, Between, Sweep;
    var q, ds := SquaredProfile(sqrt, points, curvatures, limits), Segments(sqrt, points);
    var caps := Squares(EndedCaps(sqrt, limits, curvatures));
    var rise, fall := Scaled(ds, limits.maxAccel), Scaled(ds, Abs(limits.maxDecel));
    ProfileFeasible(sqrt, points, curvatures, limits);
    ProfileBelowCaps(sqrt, points, curvatures, limits, 0);
    ZeroSquare();
    FeasibleIsDrivable(sqrt, points, curvatures, limits, q);
    if Drivable(sqrt, points, curvatures, limits, p) {
      DrivableIsFeasible(sqrt, points, curvatures, limits, p);
      forall i | 0 <= i < |p| ensures p[i] <= q[i] { SweepGreatest(p, caps, rise, fall, i); }
    }
  }

  /** One step of a profile, as a limit on the acceleration and as the sweep has it. */
  lemma StepWithin(sqrt: Sqrt, points: Path, limits: CourseLimits, p: Profile, i: nat)
    requires |p| == |points| && i + 1 < |p| && PositiveSegments(sqrt, points)
    ensures var ds := Segments(sqrt, points);
            -Abs(limits.maxDecel) <= Between(p[i], p[i + 1], DistanceXY(sqrt, points[i], points[i + 1])) <= limits.maxAccel
            <==> p[i + 1] <= p[i] + Scaled(ds, limits.maxAccel)[i] && p[i] <= p[i + 1] + Scaled(ds, Abs(limits.maxDecel))[i]
  {
    hide DistanceXY, Between, Scaled;
    var ds := Segments(sqrt, points);
    WithinIsFeasible(p[i], p[i + 1], ds[i], limits.maxAccel, Abs(limits.maxDecel));
    ScaledAt(ds, limits.maxAccel, i);
    ScaledAt(ds, Abs(limits.maxDecel), i);
  }

  lemma FeasibleIsDrivable(sqrt: Sqrt, points: Path, curvatures: seq<real>, limits: CourseLimits, q: Profile)
    requires IsSqrt(sqrt) && |points| == |curvatures| > 0 && CapsDefined(limits, curvatures) && PositiveSegments(sqrt, points)
    requires var ds := Segments(sqrt, points);
             Feasible(q, Squares(EndedCaps(sqrt, limits, curvatures)), Scaled(ds, limits.maxAccel), Scaled(ds, Abs(limits.maxDecel)))
             && q[0] == 0.0 && q[|q| - 1] == 0.0
    ensures Drivable(sqrt, points, curvatures, limits, q)
  {
    hide IsSqrt, DistanceXY, CapSpeed, Sq, Between, Segments, Scaled, EndedCaps;
    var caps := EndedCaps(sqrt, limits, curvatures);
    forall i | 0 <= i < |q| ensures q[i] <= Sq(CapSpeed(sqrt, limits, curvatures[i])) {
      assert q[i] <= Squares(caps)[i] == Sq(caps[i]);
      EndedCapsExactly(sqrt, limits, curvatures, i);
      CapSquared(sqrt, limits, curvatures[i]);
    }
    forall i | 0 <= i < |q| - 1
      ensures -Abs(limits.maxDecel) <= Between(q[i], q[i + 1], DistanceXY(sqrt, points[i], points[i + 1])) <= limits.maxAccel
    {
      StepWithin(sqrt, points, limits, q, i);
    }
  }

  lemma CapSquared(sqrt: Sqrt, limits: CourseLimits, curvature: real)
    requires Sharp(curvature) ==> limits.maxLateralAccel >= 0.0
    ensures Sq(CapSpeed(sqrt, limits, curvature)) >= 0.0 && Sq(0.0) == 0.0
  {
    SquareNonNegative(CapSpeed(sqrt, limits, curvature));
  }

  lemma ScaledAt(ds: seq<real>, factor: real, i: nat)
    requires i < |ds|
    ensures Scaled(ds, factor)[i] == 2.0 * factor * ds[i]
  {
  }

  lemma DrivableIsFeasible(sqrt: Sqrt, points: Path, curvatures: seq<real>, limits: CourseLimits, p: Profile)
    requires IsSqrt(sqrt) && |points| == |curvatures| > 0 && CapsDefined(limits, curvatures) && PositiveSegments(sqrt, points)
    requires Drivable(sqrt, points, curvatures, limits, p)
    ensures var ds := Segments(sqrt, points);
            Feasible(p, Squares(EndedCaps(sqrt, limits, curvatures)), Scaled(ds, limits.maxAccel), Scaled(ds, Abs(limits.maxDecel)))
  {
    hide IsSqrt, DistanceXY, CapSpeed, Sq, Between, Segments, Scaled, EndedCaps;
    var ds, caps := Segments(sqrt, points), EndedCaps(sqrt, limits, curvatures);
    ZeroSquare();
    forall i | 0 <= i < |p| ensures p[i] <= Squares(caps)[i] {
      EndedCapsExactly(sqrt, limits, curvatures, i);
      assert Squares(caps)[i] == Sq(caps[i]);
    }
    forall i | 0 <= i < |ds|
      ensures p[i + 1] <= p[i] + Scaled(ds, limits.maxAccel)[i] && p[i] <= p[i + 1] + Scaled(ds, Abs(limits.maxDecel))[i]
    {
      StepWithin(sqrt, points, limits, p, i);
    }
  }

  /** The accelerations of a course are those between its speeds, over gaps of at least 1e-6. */
  lemma AccelerationsExplain(q: Profile, ds: seq<real>, i: nat)
    requires |q| == |ds| + 1 && i < |q|
    ensures var a := Accelerations(q, ds, DISTANCE_FLOOR);
            if i == 0 then a[0] == 0.0 else a[i] * (2.0 * Max(ds[i - 1], 0.000001)) == q[i] - q[i - 1]
  {
  }
}
