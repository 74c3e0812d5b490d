/** Exact plane geometry over `math.sqrt`: distances, the triangle inequality, segments. */
module PlaneGeometry {
  import opened Basics

  datatype Point = Point(x: real, y: real, z: real)

  type Sqrt = real -> real

  function SquareXY(p: Point, q: Point): real {
    (p.x - q.x) * (p.x - q.x) + (p.y - q.y) * (p.y - q.y)
  }

  function Square3(p: Point, q: Point): real {
    SquareXY(p, q) + (p.z - q.z) * (p.z - q.z)
  }

  function DistanceXY(sqrt: Sqrt, p: Point, q: Point): real {
    sqrt(SquareXY(p, q))
  }

  function Distance3(sqrt: Sqrt, p: Point, q: Point): real {
    sqrt(Square3(p, q))
  }

  function Lerp(a: real, b: real, ratio: real): real {
    a + (b - a) * ratio
  }

  function LerpPoint(p: Point, q: Point, ratio: real): Point {
    Point(Lerp(p.x, q.x, ratio), Lerp(p.y, q.y, ratio), Lerp(p.z, q.z, ratio))
  }

  // ----- arithmetic

  lemma SquareNonNegative(x: real)
    ensures x * x >= 0.0
  {
  }

  lemma SquareOrder(x: real, y: real)
    requires x * x <= y * y && y >= 0.0
    ensures x <= y
  {
    var gap, sum := x - y, x + y;
    assert gap * sum == x * x - y * y;
    if gap > 0.0 { Positive(gap, sum); }
  }

  lemma Positive(x: real, y: real)
    requires x > 0.0 && y > 0.0
    ensures x * y > 0.0
  {
  }

  lemma NonNegativeProduct(x: real, y: real)
    requires x >= 0.0 && y >= 0.0
    ensures x * y >= 0.0
  {
  }

  lemma SqrtUnique(sqrt: Sqrt, x: real, r: real)
    requires IsSqrt(sqrt) && r >= 0.0 && r * r == x
    ensures sqrt(x) == r
  {
    SquareNonNegative(r);
    var s := sqrt(x);
    assert s >= 0.0 && s * s == x;
    SquareOrder(r, s);
    SquareOrder(s, r);
  }

  lemma SqrtMonotone(sqrt: Sqrt, x: real, y: real)
    requires IsSqrt(sqrt) && 0.0 <= x <= y
    ensures 0.0 <= sqrt(x) <= sqrt(y)
  {
    SquareOrder(sqrt(x), sqrt(y));
  }

  // ----- distances

  lemma DistanceSquared(sqrt: Sqrt, p: Point, q: Point)
    requires IsSqrt(sqrt)
    ensures var d := DistanceXY(sqrt, p, q);
            d >= 0.0 && d * d == SquareXY(p, q)
  {
    SquareNonNegative(p.x - q.x);
    SquareNonNegative(p.y - q.y);
  }

  lemma CauchySchwarz(a: real, b: real, c: real, d: real)
    ensures (a * c + b * d) * (a * c + b * d) <= (a * a + b * b) * (c * c + d * d)
  {
    var cross := a * d - b * c;
    SquareNonNegative(cross);
    assert (a * a + b * b) * (c * c + d * d) - (a * c + b * d) * (a * c + b * d) == cross * cross by {
      assert (a * a + b * b) * (c * c + d * d) == a * a * c * c + a * a * d * d + b * b * c * c + b * b * d * d;
      assert (a * c + b * d) * (a * c + b * d) == a * a * c * c + 2.0 * (a * b * c * d) + b * b * d * d;
      assert cross * cross == a * a * d * d - 2.0 * (a * b * c * d) + b * b * c * c;
    }
  }

  lemma SumSquare(x: real, y: real)
    ensures (x + y) * (x + y) == x * x + y * y + 2.0 * (x * y)
  {
  }

  lemma ProductSquare(x: real, y: real)
    ensures (x * y) * (x * y) == (x * x) * (y * y)
  {
  }

  /** The sides of a triangle, as numbers: `m`, `n` the lengths of two sides, `s` of their sum. */
  lemma SumNorm(a: real, b: real, c: real, d: real, m: real, n: real, s: real)
    requires m >= 0.0 && n >= 0.0 && m * m == a * a + b * b && n * n == c * c + d * d
    requires s * s == (a + c) * (a + c) + (b + d) * (b + d)
    ensures s <= m + n
  {
    var ac, bd, mn := a * c, b * d, m * n;
    CauchySchwarz(a, b, c, d);
    NonNegativeProduct(m, n);
    ProductSquare(m, n);
    assert ac + bd <= mn by { SquareOrder(ac + bd, mn); }
    SumSquare(a, c);
    SumSquare(b, d);
    SumSquare(m, n);
    SquareOrder(s, m + n);
  }

  lemma Triangle(sqrt: Sqrt, p: Point, q: Point, r: Point)
    requires IsSqrt(sqrt)
    ensures DistanceXY(sqrt, p, r) <= DistanceXY(sqrt, p, q) + DistanceXY(sqrt, q, r)
  {
    DistanceSquared(sqrt, p, q);
    DistanceSquared(sqrt, q, r);
    DistanceSquared(sqrt, p, r);
    var a, b, c, d := p.x - q.x, p.y - q.y, q.x - r.x, q.y - r.y;
    assert p.x - r.x == a + c && p.y - r.y == b + d;
    SumNorm(a, b, c, d, DistanceXY(sqrt, p, q), DistanceXY(sqrt, q, r), DistanceXY(sqrt, p, r));
  }

  lemma PlaneBelowSpace(sqrt: Sqrt, p: Point, q: Point)
    requires IsSqrt(sqrt)
    ensures 0.0 <= DistanceXY(sqrt, p, q) <= Distance3(sqrt, p, q)
  {
    SquareNonNegative(p.x - q.x);
    SquareNonNegative(p.y - q.y);
    SquareNonNegative(p.z - q.z);
    SqrtMonotone(sqrt, SquareXY(p, q), Square3(p, q));
  }

  lemma OppositeSquare(x: real, y: real)
    ensures (x - y) * (x - y) == (y - x) * (y - x)
  {
  }

  lemma DistanceSymmetric(sqrt: Sqrt, p: Point, q: Point)
    ensures DistanceXY(sqrt, p, q) == DistanceXY(sqrt, q, p) && Distance3(sqrt, p, q) == Distance3(sqrt, q, p)
  {
    OppositeSquare(p.x, q.x);
    OppositeSquare(p.y, q.y);
    OppositeSquare(p.z, q.z);
    assert SquareXY(p, q) == SquareXY(q, p) && Square3(p, q) == Square3(q, p);
  }

  lemma ZeroDistance(sqrt: Sqrt, p: Point)
    requires IsSqrt(sqrt)
    ensures DistanceXY(sqrt, p, p) == 0.0 && Distance3(sqrt, p, p) == 0.0
  {
    SqrtUnique(sqrt, 0.0, 0.0);
    assert SquareXY(p, p) == 0.0 && Square3(p, p) == 0.0;
  }

  lemma LerpDifference(a: real, b: real, t: real, u: real)
    ensures Lerp(a, b, t) - Lerp(a, b, u) == -((u - t) * (b - a))
  {
  }

  lemma NegatedSquare(x: real)
    ensures (-x) * (-x) == x * x
  {
  }

  lemma OffsetDistance(sqrt: Sqrt, v: Point, w: Point, k: real, d: real, dx: real, dy: real)
    requires IsSqrt(sqrt) && k >= 0.0 && d >= 0.0 && d * d == dx * dx + dy * dy
    requires v.x - w.x == -(k * dx) && v.y - w.y == -(k * dy)
    ensures DistanceXY(sqrt, v, w) == k * d
  {
    NonNegativeProduct(k, d);
    ScaledNorm(k, dx, dy, d);
    SquareOfOffsets(v, w, k * dx, k * dy);
    SqrtUnique(sqrt, SquareXY(v, w), k * d);
  }

  /** Two points of one segment are as far apart as their parameters times its length. */
  lemma SegmentDistance(sqrt: Sqrt, p: Point, q: Point, t: real, u: real)
    requires IsSqrt(sqrt) && t <= u
    ensures DistanceXY(sqrt, LerpPoint(p, q, t), LerpPoint(p, q, u)) == (u - t) * DistanceXY(sqrt, p, q)
  {
    DistanceSquared(sqrt, p, q);
    OppositeSquare(p.x, q.x);
    OppositeSquare(p.y, q.y);
    LerpDifference(p.x, q.x, t, u);
    LerpDifference(p.y, q.y, t, u);
    OffsetDistance(sqrt, LerpPoint(p, q, t), LerpPoint(p, q, u), u - t, DistanceXY(sqrt, p, q), q.x - p.x, q.y - p.y);
  }

  lemma SquareOfOffsets(v: Point, w: Point, dx: real, dy: real)
    requires v.x - w.x == -dx && v.y - w.y == -dy
    ensures SquareXY(v, w) == dx * dx + dy * dy
  {
    NegatedSquare(dx);
    NegatedSquare(dy);
  }

  lemma ScaledNorm(k: real, a: real, b: real, d: real)
    requires d * d == a * a + b * b
    ensures (k * d) * (k * d) == (k * a) * (k * a) + (k * b) * (k * b)
  {
    assert (k * d) * (k * d) == k * k * (d * d);
    assert (k * a) * (k * a) == k * k * (a * a) && (k * b) * (k * b) == k * k * (b * b);
    assert k * k * (a * a + b * b) == k * k * (a * a) + k * k * (b * b);
  }
}
