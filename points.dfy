/**
 * Pixel geometry of smashstats: integer points, offsets and scalings by a
 * resolution factor, the Euclidean neighbourhood test and the greedy
 * first-seen-wins de-duplication of a list of match positions.
 *
 * The floating-point scale `height / 1080.0` is modelled as an exact
 * rational `num / den`, and Python's `int(round(v))` as rounding to the
 * nearest integer with ties to the even neighbour.
 */
module Points {

  /** An integer pixel position (x = column, y = row). */
  datatype Point = Point(x: int, y: int)

  type Positive = n: int | n > 0 witness 1

  /** A resolution factor num / den. */
  datatype Scale = Scale(num: nat, den: Positive)

  /** The factor 1, the default `scale=1` of `offset`. */
  const Unit: Scale := Scale(1, 1)

  /** The default neighbourhood radius of `remove_neighbors`. */
  const DefaultDistance: int := 5

  function Abs(n: int): nat
  {
    if n < 0 then -n else n
  }

  /**
   * Python's `round` applied to the rational n / d: the nearest integer,
   * and on a tie (exactly half-way) the even one of the two neighbours.
   */
  function RoundHalfEven(n: int, d: Positive): int
  {
    var q, r := n / d, n % d;
    if 2 * r < d then q
    else if 2 * r > d then q + 1
    else if q % 2 == 0 then q
    else q + 1
  }

  /** RoundHalfEven is within one half of n / d, and even on a tie. */
  lemma RoundNearest(n: int, d: Positive)
    ensures var k := RoundHalfEven(n, d);
      && 2 * Abs(n - k * d) <= d
      && (2 * Abs(n - k * d) == d ==> k % 2 == 0)
  {
    var q, r := n / d, n % d;
    assert n == q * d + r;
    assert n - (q + 1) * d == r - d;
  }

  /** Rounding a whole number of units gives that number back. */
  lemma RoundExact(m: int, d: Positive)
    ensures RoundHalfEven(m * d, d) == m
  {
    var k := RoundHalfEven(m * d, d);
    RoundNearest(m * d, d);
    NearestOfWhole(m, k, d);
  }

  /** The only whole number of units within half a unit of m units is m. */
  lemma NearestOfWhole(m: int, k: int, d: Positive)
    requires 2 * Abs(m * d - k * d) <= d
    ensures k == m
  {
    assert m * d - k * d == (m - k) * d;
    WholeUnits(m - k, d);
  }

  /**
   * Whole numbers of units within half a unit of a and of b, where a < b,
   * come in the same order.
   */
  lemma NearestOrdered(a: int, b: int, ka: int, kb: int, d: Positive)
    requires a < b
    requires 2 * Abs(a - ka * d) <= d && 2 * Abs(b - kb * d) <= d
    ensures ka <= kb
  {
    assert ka * d - kb * d == (ka - kb) * d;
    WholeUnits(ka - kb, d);
  }

  /** A non-zero multiple of d is at least d away from zero. */
  lemma WholeUnits(e: int, d: Positive)
    ensures e >= 1 ==> e * d >= d
    ensures e <= -1 ==> e * d + d <= 0
  {
    if e >= 1 {
      assert e * d == (e - 1) * d + d;
    } else if e <= -1 {
      assert e * d == (e + 1) * d - d;
    }
  }

  /**
   * `offset(point1, point2, scale)`: point1 + point2 * scale, each
   * coordinate rounded to the nearest pixel.
   */
  function Offset(base: Point, delta: Point, s: Scale): Point
  {
    Point(RoundHalfEven(base.x * s.den + delta.x * s.num, s.den),
          RoundHalfEven(base.y * s.den + delta.y * s.num, s.den))
  }

  /** Each coordinate of Offset is within half a pixel of base + delta * num / den. */
  lemma OffsetNearest(base: Point, delta: Point, s: Scale)
    ensures var r := Offset(base, delta, s);
      && 2 * Abs(base.x * s.den + delta.x * s.num - r.x * s.den) <= s.den
      && 2 * Abs(base.y * s.den + delta.y * s.num - r.y * s.den) <= s.den
  {
    RoundNearest(base.x * s.den + delta.x * s.num, s.den);
    RoundNearest(base.y * s.den + delta.y * s.num, s.den);
  }

  /** `scale_point(point1, scale)`: point1 * scale rounded to the nearest pixel. */
  function ScalePoint(p: Point, s: Scale): Point
  {
    Point(RoundHalfEven(p.x * s.num, s.den), RoundHalfEven(p.y * s.num, s.den))
  }

  /** Each coordinate of ScalePoint is within half a pixel of p * num / den. */
  lemma ScalePointNearest(p: Point, s: Scale)
    ensures var r := ScalePoint(p, s);
      && 2 * Abs(p.x * s.num - r.x * s.den) <= s.den
      && 2 * Abs(p.y * s.num - r.y * s.den) <= s.den
  {
    RoundNearest(p.x * s.num, s.den);
    RoundNearest(p.y * s.num, s.den);
  }

  /** At a factor of one, `offset` is exact component-wise addition. */
  lemma OffsetUnitScale(base: Point, delta: Point, s: Scale)
    requires s.num == s.den
    ensures Offset(base, delta, s) == Point(base.x + delta.x, base.y + delta.y)
  {
    var d := s.den;
    var nx, ny := base.x * d + delta.x * s.num, base.y * d + delta.y * s.num;
    assert nx == (base.x + delta.x) * d by {
      assert delta.x * s.num == delta.x * d;
    }
    assert ny == (base.y + delta.y) * d by {
      assert delta.y * s.num == delta.y * d;
    }
    RoundExact(base.x + delta.x, d);
    RoundExact(base.y + delta.y, d);
    assert Offset(base, delta, s) == Point(RoundHalfEven(nx, d), RoundHalfEven(ny, d));
  }

  /** Offsetting by (0, 0) returns the point itself, at every factor. */
  lemma OffsetByZero(p: Point, s: Scale)
    ensures Offset(p, Point(0, 0), s) == p
  {
    RoundExact(p.x, s.den);
    RoundExact(p.y, s.den);
  }

  /** At a factor of one, `scale_point` returns the point unchanged. */
  lemma ScalePointUnit(p: Point, s: Scale)
    requires s.num == s.den
    ensures ScalePoint(p, s) == p
  {
    assert p.x * s.num == p.x * s.den;
    assert p.y * s.num == p.y * s.den;
    RoundExact(p.x, s.den);
    RoundExact(p.y, s.den);
  }

  /** Rounding to the nearest integer never reverses an order. */
  lemma RoundMonotone(a: int, b: int, d: Positive)
    requires a <= b
    ensures RoundHalfEven(a, d) <= RoundHalfEven(b, d)
  {
    if a < b {
      RoundNearest(a, d);
      RoundNearest(b, d);
      NearestOrdered(a, b, RoundHalfEven(a, d), RoundHalfEven(b, d), d);
    }
  }

  /** Scaling by a non-negative factor never reverses an order. */
  lemma ScaleMonotone(a: int, b: int, y: int, s: Scale)
    requires a <= b
    ensures ScalePoint(Point(a, y), s).x <= ScalePoint(Point(b, y), s).x
  {
    assert a * s.num <= b * s.num by {
      assert b * s.num - a * s.num == (b - a) * s.num;
    }
    RoundMonotone(a * s.num, b * s.num, s.den);
  }

  /**
   * The square of `euclid_distance`; the square root is never taken, every
   * comparison is made between squares (see NearIsEuclidean).
   */
  function SquaredDistance(p: Point, q: Point): (r: nat)
    ensures r == 0 <==> p == q
  {
    var dx, dy := p.x - q.x, p.y - q.y;
    assert dx * dx >= 0 && dy * dy >= 0;
    assert dx != 0 ==> dx * dx > 0;
    assert dy != 0 ==> dy * dy > 0;
    dx * dx + dy * dy
  }

  lemma DistanceToSelf(p: Point)
    ensures SquaredDistance(p, p) == 0
  {
  }

  lemma DistanceSymmetric(p: Point, q: Point)
    ensures SquaredDistance(p, q) == SquaredDistance(q, p)
  {
  }

  /** `euclid_distance(p, q) < distance`, stated on squares. */
  predicate Near(p: Point, q: Point, distance: int)
  {
    distance > 0 && SquaredDistance(p, q) < distance * distance
  }

  /**
   * Near is exactly the test `sqrt(dx^2 + dy^2) < distance` for the
   * non-negative real square root `root`, whatever the sign of distance.
   */
  lemma NearIsEuclidean(p: Point, q: Point, distance: int, root: real)
    requires root >= 0.0 && root * root == SquaredDistance(p, q) as real
    ensures root < distance as real <==> Near(p, q, distance)
  {
    var d := distance as real;
    if distance > 0 {
      if root < d {
        assert root * root <= root * d;
        assert root * d < d * d;
      } else {
        assert root * root >= d * root;
        assert d * root >= d * d;
      }
      assert (distance * distance) as real == d * d;
    }
  }

  lemma NearSymmetric(p: Point, q: Point, distance: int)
    ensures Near(p, q, distance) <==> Near(q, p, distance)
  {
    DistanceSymmetric(p, q);
  }

  /** Is p within distance of one of the points already kept? */
  predicate NearAny(p: Point, kept: seq<Point>, distance: int)
  {
    exists j :: 0 <= j < |kept| && Near(p, kept[j], distance)
  }

  /**
   * What `remove_neighbors(points, distance)` returns: scanning the input in
   * order, a point is kept when it is not near any point kept before it.
   */
  function Dedup(points: seq<Point>, distance: int): (r: seq<Point>)
    ensures |r| <= |points|
  {
    if points == [] then []
    else
      var kept := Dedup(points[..|points| - 1], distance);
      var p := points[|points| - 1];
      if NearAny(p, kept, distance) then kept else kept + [p]
  }

  /** The input positions of the points Dedup keeps, in order. */
  ghost function KeptIndices(points: seq<Point>, distance: int): seq<nat>
  {
    if points == [] then []
    else
      var n := |points| - 1;
      if NearAny(points[n], Dedup(points[..n], distance), distance)
      then KeptIndices(points[..n], distance)
      else KeptIndices(points[..n], distance) + [n]
  }

  /** r is the subsequence of s at the strictly increasing positions ks. */
  ghost predicate SubsequenceAt(r: seq<Point>, s: seq<Point>, ks: seq<nat>)
  {
    && |ks| == |r|
    && (forall j :: 0 <= j < |ks| ==> ks[j] < |s| && r[j] == s[ks[j]])
    && (forall j, k :: 0 <= j < k < |ks| ==> ks[j] < ks[k])
  }

  /** No two points of s are near each other. */
  ghost predicate Separated(s: seq<Point>, distance: int)
  {
    forall i, j :: 0 <= i < j < |s| ==> !Near(s[i], s[j], distance)
  }

  /** The output of Dedup is an order-preserving subsequence of its input. */
  lemma {:induction false} DedupIsSubsequence(points: seq<Point>, distance: int)
    ensures SubsequenceAt(Dedup(points, distance), points, KeptIndices(points, distance))
  {
    if points != [] {
      var n := |points| - 1;
      var pre := points[..n];
      DedupIsSubsequence(pre, distance);
      var r0, ks0 := Dedup(pre, distance), KeptIndices(pre, distance);
      assert forall j :: 0 <= j < |ks0| ==> ks0[j] < n && r0[j] == points[ks0[j]];
    }
  }

  /** Dedup of a prefix is a prefix of Dedup, for both the points and their positions. */
  lemma {:induction false} DedupPrefix(points: seq<Point>, i: nat, distance: int)
    requires i <= |points|
    ensures Dedup(points[..i], distance) <= Dedup(points, distance)
    ensures KeptIndices(points[..i], distance) <= KeptIndices(points, distance)
  {
    if i < |points| {
      var n := |points| - 1;
      assert points[..n][..i] == points[..i];
      DedupPrefix(points[..n], i, distance);
    } else {
      assert points[..i] == points;
    }
  }

  /** Any two kept points are at least distance apart. */
  lemma {:induction false} DedupSeparated(points: seq<Point>, distance: int)
    ensures Separated(Dedup(points, distance), distance)
  {
    if points != [] {
      var n := |points| - 1;
      var kept := Dedup(points[..n], distance);
      DedupSeparated(points[..n], distance);
      var p := points[n];
      if !NearAny(p, kept, distance) {
        forall j | 0 <= j < |kept|
          ensures !Near(kept[j], p, distance)
        {
          NearSymmetric(kept[j], p, distance);
        }
      }
    }
  }

  /** The point at position i is kept, or near a point kept from an earlier position. */
  ghost predicate Covered(points: seq<Point>, distance: int, i: nat)
    requires i < |points|
  {
    var r, ks := Dedup(points, distance), KeptIndices(points, distance);
    i in ks || exists j :: 0 <= j < |r| && j < |ks| && ks[j] < i && Near(points[i], r[j], distance)
  }

  /**
   * Every position of the input is kept, or its point is near a point that
   * was kept from an earlier position.
   */
  lemma {:induction false} DedupCovers(points: seq<Point>, distance: int, i: nat)
    requires i < |points|
    ensures var r, ks := Dedup(points, distance), KeptIndices(points, distance);
      i in ks || exists j :: 0 <= j < |r| && j < |ks| && ks[j] < i && Near(points[i], r[j], distance)
  {
    if i < |points| - 1 {
      DedupCovers(points[..|points| - 1], distance, i);
      CoveredInPrefix(points, distance, i);
    } else {
      CoveredLast(points, distance);
    }
  }

  /** Coverage of a position carries over from the input without its last point. */
  lemma CoveredInPrefix(points: seq<Point>, distance: int, i: nat)
    requires i < |points| - 1
    requires Covered(points[..|points| - 1], distance, i)
    ensures Covered(points, distance, i)
  {
    var n := |points| - 1;
    DedupPrefix(points, n, distance);
    if i in KeptIndices(points[..n], distance) {
      KeptInPrefix(points, distance, i);
    } else {
      NearInPrefix(points, distance, i);
    }
  }

  /** A position kept from the input without its last point is kept from the input. */
  lemma KeptInPrefix(points: seq<Point>, distance: int, i: nat)
    requires i < |points| - 1
    requires KeptIndices(points[..|points| - 1], distance) <= KeptIndices(points, distance)
    requires i in KeptIndices(points[..|points| - 1], distance)
    ensures i in KeptIndices(points, distance)
  {
    var ks', ks := KeptIndices(points[..|points| - 1], distance), KeptIndices(points, distance);
    var k :| 0 <= k < |ks'| && ks'[k] == i;
    assert ks[k] == i;
  }

  /** A point near an earlier kept point of the prefix is near the same point of the whole. */
  lemma NearInPrefix(points: seq<Point>, distance: int, i: nat)
    requires i < |points| - 1
    requires Dedup(points[..|points| - 1], distance) <= Dedup(points, distance)
    requires KeptIndices(points[..|points| - 1], distance) <= KeptIndices(points, distance)
    requires var pre := points[..|points| - 1];
      var r', ks' := Dedup(pre, distance), KeptIndices(pre, distance);
      exists j :: 0 <= j < |r'| && j < |ks'| && ks'[j] < i && Near(pre[i], r'[j], distance)
    ensures var r, ks := Dedup(points, distance), KeptIndices(points, distance);
      exists j :: 0 <= j < |r| && j < |ks| && ks[j] < i && Near(points[i], r[j], distance)
  {
    var pre := points[..|points| - 1];
    var r', ks' := Dedup(pre, distance), KeptIndices(pre, distance);
    var r, ks := Dedup(points, distance), KeptIndices(points, distance);
    var j :| 0 <= j < |r'| && j < |ks'| && ks'[j] < i && Near(pre[i], r'[j], distance);
    assert pre[i] == points[i];
    assert r[j] == r'[j] && ks[j] == ks'[j];
  }

  /** The last position is kept, or near a point kept from an earlier position. */
  lemma CoveredLast(points: seq<Point>, distance: int)
    requires points != []
    ensures Covered(points, distance, |points| - 1)
  {
    var n := |points| - 1;
    var pre := points[..n];
    var r, ks := Dedup(points, distance), KeptIndices(points, distance);
    var r', ks' := Dedup(pre, distance), KeptIndices(pre, distance);
    if NearAny(points[n], r', distance) {
      var j :| 0 <= j < |r'| && Near(points[n], r'[j], distance);
      DedupIsSubsequence(pre, distance);
      DedupPrefix(points, n, distance);
      assert points[..n] == pre;
      assert ks[j] == ks'[j] < n;
      assert r[j] == r'[j];
    }
  }

  /** The first point of a non-empty input is always kept. */
  lemma DedupKeepsFirst(points: seq<Point>, distance: int)
    requires points != []
    ensures Dedup(points, distance) != [] && Dedup(points, distance)[0] == points[0]
  {
    DedupPrefix(points, 1, distance);
    assert Dedup(points[..1], distance) == [points[0]] by {
      assert points[..1][..0] == [];
    }
  }

  /** With a radius of zero or less nothing is near anything: the input comes back. */
  lemma {:induction false} DedupNonPositiveDistance(points: seq<Point>, distance: int)
    requires distance <= 0
    ensures Dedup(points, distance) == points
  {
    if points != [] {
      var n := |points| - 1;
      DedupNonPositiveDistance(points[..n], distance);
      assert points[..n] + [points[n]] == points;
    }
  }

  /** A list whose points are pairwise separated is left unchanged. */
  lemma {:induction false} DedupOfSeparated(s: seq<Point>, distance: int)
    requires Separated(s, distance)
    ensures Dedup(s, distance) == s
  {
    if s != [] {
      var n := |s| - 1;
      var pre := s[..n];
      assert Separated(pre, distance) by {
        forall i, j | 0 <= i < j < |pre|
          ensures !Near(pre[i], pre[j], distance)
        {
          assert pre[i] == s[i] && pre[j] == s[j];
        }
      }
      DedupOfSeparated(pre, distance);
      assert !NearAny(s[n], pre, distance) by {
        forall j | 0 <= j < n
          ensures !Near(s[n], pre[j], distance)
        {
          assert pre[j] == s[j];
          NearSymmetric(s[n], s[j], distance);
        }
      }
      assert pre + [s[n]] == s;
    }
  }

  /** `remove_neighbors` applied to its own output changes nothing. */
  lemma DedupIdempotent(points: seq<Point>, distance: int)
    ensures Dedup(Dedup(points, distance), distance) == Dedup(points, distance)
  {
    DedupSeparated(points, distance);
    DedupOfSeparated(Dedup(points, distance), distance);
  }

  /**
   * `remove_neighbors`: the outer loop grows `consolidated`, the inner loop
   * raises `near` when the current point is near an already chosen one.
   */
  method RemoveNeighbors(points: seq<Point>, distance: int) returns (consolidated: seq<Point>)
    ensures consolidated == Dedup(points, distance)
  {
    consolidated := [];
    var i := 0;
    while i < |points|
      invariant 0 <= i <= |points|
      invariant consolidated == Dedup(points[..i], distance)
    {
      var point := points[i];
      var near := false;
      var k := 0;
      while k < |consolidated|
        invariant 0 <= k <= |consolidated|
        invariant near <==> exists j :: 0 <= j < k && Near(point, consolidated[j], distance)
      {
        if Near(point, consolidated[k], distance) {
          near := true;
        }
        k := k + 1;
      }
      assert points[..i + 1][..i] == points[..i];
      if !near {
        consolidated := consolidated + [point];
      }
      i := i + 1;
    }
    assert points[..i] == points;
  }
}
