/** `Sphere.intersections` of raytrace/geometry.py, reduced to what can be
    stated without square roots: the decomposition of the offset of each ray
    origin into parts along and across the ray, the miss mask, and the
    placement of `inf` at the misses. The distances themselves are computed
    with `sqrt` and enter as an input. */
module Geometry {
  import opened Masked
  import opened Vector
  import opened Distance

  datatype Sphere = Sphere(center: Vec, radius: real)
  {
    /** `self.radius**2`. */
    function RadiusSq(): real { radius * radius }
  }

  /** `x = positions - center`. */
  function Offset(s: Sphere, origin: V3): (x: V3)
    requires origin.Valid()
    ensures SameLen(x, origin)
  {
    origin.Sub(Fill(s.center, origin.Len()))
  }

  /** `x_para = directions.scale(x.dot(directions))`. */
  function Parallel(x: V3, dir: V3): (p: V3)
    requires SameLen(x, dir)
    ensures SameLen(p, x)
  {
    dir.ScaleEach(x.Dot(dir))
  }

  /** `x_perp = x - x_para`. */
  function Perpendicular(x: V3, dir: V3): (q: V3)
    requires SameLen(x, dir)
    ensures SameLen(q, x)
  {
    x.Sub(Parallel(x, dir))
  }

  /** `x.normsq()` of ray j: squared distance of its origin from the centre. */
  function OriginSq(s: Sphere, origin: V3, j: nat): real
    requires origin.Valid() && j < origin.Len()
  {
    Offset(s, origin).NormSq()[j]
  }

  /** `x_perp.normsq()` of ray j. */
  function PerpSq(s: Sphere, origin: V3, dir: V3, j: nat): real
    requires SameLen(origin, dir) && j < origin.Len()
  {
    var x := Offset(s, origin);
    Perpendicular(x, dir).NormSq()[j]
  }

  /** `x.dot(directions)` of ray j; negative when the centre is ahead. */
  function Along(s: Sphere, origin: V3, dir: V3, j: nat): real
    requires SameLen(origin, dir) && j < origin.Len()
  {
    Offset(s, origin).Dot(dir)[j]
  }

  /** Ray j misses as written: its origin is inside or on the sphere, its
      squared perpendicular offset exceeds the literal 1, or the sphere is
      not ahead of it. */
  predicate MissedAsWritten(s: Sphere, origin: V3, dir: V3, j: nat)
    requires SameLen(origin, dir) && j < origin.Len()
  {
    OriginSq(s, origin, j) <= s.RadiusSq() || PerpSq(s, origin, dir, j) > 1.0 || Along(s, origin, dir, j) >= 0.0
  }

  /** Ray j misses by the test the radius calls for: the perpendicular offset
      is compared with radius squared, the quantity under the square root of
      the distance. */
  predicate Missed(s: Sphere, origin: V3, dir: V3, j: nat)
    requires SameLen(origin, dir) && j < origin.Len()
  {
    OriginSq(s, origin, j) <= s.RadiusSq() || PerpSq(s, origin, dir, j) > s.RadiusSq() || Along(s, origin, dir, j) >= 0.0
  }

  /** The `miss` array of `intersections` as written. */
  function MissMaskAsWritten(s: Sphere, origin: V3, dir: V3): (miss: seq<bool>)
    requires SameLen(origin, dir)
    ensures |miss| == origin.Len()
  {
    seq(origin.Len(), j requires 0 <= j < origin.Len() => MissedAsWritten(s, origin, dir, j))
  }

  /** The `miss` array with the radius-based test. */
  function MissMask(s: Sphere, origin: V3, dir: V3): (miss: seq<bool>)
    requires SameLen(origin, dir)
    ensures |miss| == origin.Len()
  {
    seq(origin.Len(), j requires 0 <= j < origin.Len() => Missed(s, origin, dir, j))
  }

  /** `np.place(distance, miss, np.inf)` on the computed distances. */
  function MarkMisses(dist: seq<real>, miss: seq<bool>): (r: seq<Dist>)
    requires |miss| == |dist|
    ensures |r| == |dist|
  {
    Place(seq(|dist|, j requires 0 <= j < |dist| => Fin(dist[j])), miss, [Inf])
  }

  /** Every missed ray gets `inf`, every other ray keeps its distance. */
  lemma MarkMissesAt(dist: seq<real>, miss: seq<bool>, j: nat)
    requires |miss| == |dist| && j < |dist|
    ensures MarkMisses(dist, miss)[j] == if miss[j] then Inf else Fin(dist[j])
  {
    PlaceOne(seq(|dist|, j requires 0 <= j < |dist| => Fin(dist[j])), miss, Inf);
  }

  /** The distances `intersections` reports as written, given the square-root
      distances `dist` it computes for every ray. */
  function IntersectionsAsWritten(s: Sphere, origin: V3, dir: V3, dist: seq<real>): (r: seq<Dist>)
    requires SameLen(origin, dir) && |dist| == origin.Len()
    ensures |r| == origin.Len()
  {
    MarkMisses(dist, MissMaskAsWritten(s, origin, dir))
  }

  /** The distances with the radius-based miss test. */
  function Intersections(s: Sphere, origin: V3, dir: V3, dist: seq<real>): (r: seq<Dist>)
    requires SameLen(origin, dir) && |dist| == origin.Len()
    ensures |r| == origin.Len()
  {
    MarkMisses(dist, MissMask(s, origin, dir))
  }

  /** Ray by ray, `intersections` as written reports `inf` exactly for the
      missed rays and the computed distance for the others. */
  lemma IntersectionsAsWrittenAt(s: Sphere, origin: V3, dir: V3, dist: seq<real>, j: nat)
    requires SameLen(origin, dir) && |dist| == origin.Len() && j < origin.Len()
    ensures IntersectionsAsWritten(s, origin, dir, dist)[j] == if MissedAsWritten(s, origin, dir, j) then Inf else Fin(dist[j])
  {
    var miss := MissMaskAsWritten(s, origin, dir);
    assert miss[j] == MissedAsWritten(s, origin, dir, j);
    MarkMissesAt(dist, miss, j);
  }

  /** The same with the radius-based test. */
  lemma IntersectionsAt(s: Sphere, origin: V3, dir: V3, dist: seq<real>, j: nat)
    requires SameLen(origin, dir) && |dist| == origin.Len() && j < origin.Len()
    ensures Intersections(s, origin, dir, dist)[j] == if Missed(s, origin, dir, j) then Inf else Fin(dist[j])
  {
    var miss := MissMask(s, origin, dir);
    assert miss[j] == Missed(s, origin, dir, j);
    MarkMissesAt(dist, miss, j);
  }

  /** The three miss conditions of the code as written, one by one: an origin
      inside or on the sphere, a perpendicular offset above 1, a sphere not
      ahead; a ray meeting none keeps its distance. */
  lemma MissConditionsAsWritten(s: Sphere, origin: V3, dir: V3, dist: seq<real>, j: nat)
    requires SameLen(origin, dir) && |dist| == origin.Len() && j < origin.Len()
    ensures var r := IntersectionsAsWritten(s, origin, dir, dist);
      (OriginSq(s, origin, j) <= s.RadiusSq() ==> r[j] == Inf) &&
      (PerpSq(s, origin, dir, j) > 1.0 ==> r[j] == Inf) &&
      (Along(s, origin, dir, j) >= 0.0 ==> r[j] == Inf) &&
      ((OriginSq(s, origin, j) > s.RadiusSq() && PerpSq(s, origin, dir, j) <= 1.0 && Along(s, origin, dir, j) < 0.0)
        ==> r[j] == Fin(dist[j]))
  {
    IntersectionsAsWrittenAt(s, origin, dir, dist, j);
  }

  /** The same conditions with radius squared in the perpendicular test. */
  lemma MissConditions(s: Sphere, origin: V3, dir: V3, dist: seq<real>, j: nat)
    requires SameLen(origin, dir) && |dist| == origin.Len() && j < origin.Len()
    ensures var r := Intersections(s, origin, dir, dist);
      var rr := s.RadiusSq();
      (OriginSq(s, origin, j) <= rr ==> r[j] == Inf) &&
      (PerpSq(s, origin, dir, j) > rr ==> r[j] == Inf) &&
      (Along(s, origin, dir, j) >= 0.0 ==> r[j] == Inf) &&
      ((OriginSq(s, origin, j) > rr && PerpSq(s, origin, dir, j) <= rr && Along(s, origin, dir, j) < 0.0)
        ==> r[j] == Fin(dist[j]))
  {
    IntersectionsAt(s, origin, dir, dist, j);
  }

  // ---------------------------------------------------------------------
  // Geometry of one ray, with offset (x1, x2, x3) and unit direction (d1, d2, d3)

  function Dot3(a1: real, a2: real, a3: real, b1: real, b2: real, b3: real): real
  {
    a1 * b1 + a2 * b2 + a3 * b3
  }

  /** Pythagoras along a unit direction d, with p = x.d: the squared distance
      from the centre to the point x + t d is the squared perpendicular
      offset plus (t + p)^2. */
  lemma Pythagoras(x1: real, x2: real, x3: real, d1: real, d2: real, d3: real, t: real)
    requires Dot3(d1, d2, d3, d1, d2, d3) == 1.0
    ensures var p := Dot3(x1, x2, x3, d1, d2, d3);
      Dot3(x1 + t * d1, x2 + t * d2, x3 + t * d3, x1 + t * d1, x2 + t * d2, x3 + t * d3)
      == Dot3(x1 - p * d1, x2 - p * d2, x3 - p * d3, x1 - p * d1, x2 - p * d2, x3 - p * d3) + (t + p) * (t + p)
  {
    var p := Dot3(x1, x2, x3, d1, d2, d3);
    var xx := Dot3(x1, x2, x3, x1, x2, x3);
    assert Dot3(x1 + t * d1, x2 + t * d2, x3 + t * d3, x1 + t * d1, x2 + t * d2, x3 + t * d3)
      == xx + 2.0 * t * p + t * t * Dot3(d1, d2, d3, d1, d2, d3);
    assert Dot3(x1 - p * d1, x2 - p * d2, x3 - p * d3, x1 - p * d1, x2 - p * d2, x3 - p * d3)
      == xx - 2.0 * p * p + p * p * Dot3(d1, d2, d3, d1, d2, d3);
  }

  /** The part of x across a unit direction is orthogonal to it. */
  lemma PerpendicularOrthogonal(x1: real, x2: real, x3: real, d1: real, d2: real, d3: real)
    requires Dot3(d1, d2, d3, d1, d2, d3) == 1.0
    ensures var p := Dot3(x1, x2, x3, d1, d2, d3);
      Dot3(x1 - p * d1, x2 - p * d2, x3 - p * d3, d1, d2, d3) == 0.0
  {
    var p := Dot3(x1, x2, x3, d1, d2, d3);
    assert Dot3(x1 - p * d1, x2 - p * d2, x3 - p * d3, d1, d2, d3) == p - p * Dot3(d1, d2, d3, d1, d2, d3);
  }

  // ---------------------------------------------------------------------
  // The batch quantities of ray j in those terms

  /** The squared distance from the centre of the point at parameter t on ray j. */
  function PointSq(s: Sphere, origin: V3, dir: V3, j: nat, t: real): real
    requires SameLen(origin, dir) && j < origin.Len()
  {
    var x := Offset(s, origin);
    Dot3(x.x[j] + t * dir.x[j], x.y[j] + t * dir.y[j], x.z[j] + t * dir.z[j],
         x.x[j] + t * dir.x[j], x.y[j] + t * dir.y[j], x.z[j] + t * dir.z[j])
  }

  /** Direction j has length one, as the camera's rays do. */
  predicate UnitAt(dir: V3, j: nat)
    requires dir.Valid() && j < dir.Len()
  {
    dir.NormSq()[j] == 1.0
  }

  lemma RayScalars(s: Sphere, origin: V3, dir: V3, j: nat)
    requires SameLen(origin, dir) && j < origin.Len()
    ensures var x := Offset(s, origin);
      var p := Dot3(x.x[j], x.y[j], x.z[j], dir.x[j], dir.y[j], dir.z[j]);
      && dir.NormSq()[j] == Dot3(dir.x[j], dir.y[j], dir.z[j], dir.x[j], dir.y[j], dir.z[j])
      && OriginSq(s, origin, j) == PointSq(s, origin, dir, j, 0.0)
      && Along(s, origin, dir, j) == p
      && PerpSq(s, origin, dir, j)
         == Dot3(x.x[j] - p * dir.x[j], x.y[j] - p * dir.y[j], x.z[j] - p * dir.z[j],
                 x.x[j] - p * dir.x[j], x.y[j] - p * dir.y[j], x.z[j] - p * dir.z[j])
  {
  }

  /** For a unit direction, `x_para + x_perp == x` and `x_perp` is orthogonal
      to the ray. */
  lemma Decomposition(s: Sphere, origin: V3, dir: V3, j: nat)
    requires SameLen(origin, dir) && j < origin.Len() && UnitAt(dir, j)
    ensures var x := Offset(s, origin);
      Parallel(x, dir).Add(Perpendicular(x, dir)) == x && Perpendicular(x, dir).Dot(dir)[j] == 0.0
  {
    var x := Offset(s, origin);
    ParallelPlusPerpendicular(x, dir);
    PerpendicularDot(s, origin, dir, j);
  }

  lemma ParallelPlusPerpendicular(x: V3, dir: V3)
    requires SameLen(x, dir)
    ensures Parallel(x, dir).Add(Perpendicular(x, dir)) == x
  {
    var p, q := Parallel(x, dir), Perpendicular(x, dir);
    assert p.Add(q).x == x.x;
    assert p.Add(q).y == x.y;
    assert p.Add(q).z == x.z;
  }

  lemma PerpendicularDot(s: Sphere, origin: V3, dir: V3, j: nat)
    requires SameLen(origin, dir) && j < origin.Len() && UnitAt(dir, j)
    ensures var x := Offset(s, origin);
      Perpendicular(x, dir).Dot(dir)[j] == 0.0
  {
    var x := Offset(s, origin);
    RayScalars(s, origin, dir, j);
    PerpendicularOrthogonal(x.x[j], x.y[j], x.z[j], dir.x[j], dir.y[j], dir.z[j]);
  }

  /** Along a unit direction, the squared distance from the centre at
      parameter t is the squared perpendicular offset plus (t + x.d)^2. */
  lemma PointSqSplits(s: Sphere, origin: V3, dir: V3, j: nat, t: real)
    requires SameLen(origin, dir) && j < origin.Len() && UnitAt(dir, j)
    ensures PointSq(s, origin, dir, j, t)
      == PerpSq(s, origin, dir, j) + (t + Along(s, origin, dir, j)) * (t + Along(s, origin, dir, j))
  {
    var x := Offset(s, origin);
    RayScalars(s, origin, dir, j);
    Pythagoras(x.x[j], x.y[j], x.z[j], dir.x[j], dir.y[j], dir.z[j], t);
  }

  lemma OriginAtZero(s: Sphere, origin: V3, dir: V3, j: nat)
    requires SameLen(origin, dir) && j < origin.Len()
    ensures OriginSq(s, origin, j) == PointSq(s, origin, dir, j, 0.0)
    ensures PerpSq(s, origin, dir, j) >= 0.0
  {
    assert PerpSq(s, origin, dir, j) == Perpendicular(Offset(s, origin), dir).NormSq()[j];
  }

  /** A kept ray starts outside the sphere, and at parameter -(x.d) > 0 it
      reaches the point of the line closest to the centre, inside the ball. */
  lemma KeptRayEntersSphere(s: Sphere, origin: V3, dir: V3, j: nat)
    requires SameLen(origin, dir) && j < origin.Len() && UnitAt(dir, j)
    requires !Missed(s, origin, dir, j)
    ensures OriginSq(s, origin, j) > s.RadiusSq()
    ensures -Along(s, origin, dir, j) > 0.0
    ensures PointSq(s, origin, dir, j, -Along(s, origin, dir, j)) == PerpSq(s, origin, dir, j) <= s.RadiusSq()
  {
    PointSqSplits(s, origin, dir, j, -Along(s, origin, dir, j));
  }

  /** A ray that starts outside the sphere and reaches the ball at some
      parameter t > 0 is kept. */
  lemma EnteringRayIsKept(s: Sphere, origin: V3, dir: V3, j: nat, t: real)
    requires SameLen(origin, dir) && j < origin.Len() && UnitAt(dir, j)
    requires OriginSq(s, origin, j) > s.RadiusSq()
    requires t > 0.0 && PointSq(s, origin, dir, j, t) <= s.RadiusSq()
    ensures !Missed(s, origin, dir, j)
  {
    var perp, p := PerpSq(s, origin, dir, j), Along(s, origin, dir, j);
    OriginAtZero(s, origin, dir, j);
    PointSqSplits(s, origin, dir, j, 0.0);
    PointSqSplits(s, origin, dir, j, t);
    assert perp + (0.0 + p) * (0.0 + p) == OriginSq(s, origin, j);
    EntryArith(perp, p, s.RadiusSq(), t);
  }

  lemma EntryArith(perp: real, p: real, rr: real, t: real)
    requires t > 0.0 && perp >= 0.0
    requires perp + (0.0 + p) * (0.0 + p) > rr && perp + (t + p) * (t + p) <= rr
    ensures p < 0.0 && perp <= rr
  {
    Square(t + p);
    if p >= 0.0 {
      MulIncreasing(p, t);
    }
  }

  lemma Square(q: real)
    ensures q * q >= 0.0
  {
    if q < 0.0 {
      assert q * q == (-q) * (-q);
    }
  }

  lemma MulIncreasing(p: real, t: real)
    requires p >= 0.0 && t > 0.0
    ensures (t + p) * (t + p) > p * p
  {
    assert (t + p) * (t + p) == p * p + t * (t + 2.0 * p);
  }

  /** A ray whose perpendicular offset exceeds the radius stays outside the
      sphere at every parameter t. */
  lemma WideRayNeverMeets(s: Sphere, origin: V3, dir: V3, j: nat, t: real)
    requires SameLen(origin, dir) && j < origin.Len() && UnitAt(dir, j)
    requires PerpSq(s, origin, dir, j) > s.RadiusSq()
    ensures PointSq(s, origin, dir, j, t) > s.RadiusSq()
  {
    PointSqSplits(s, origin, dir, j, t);
    Square(t + Along(s, origin, dir, j));
  }

  /** A kept ray leaves a non-negative number under the square root of the
      distance, `radius**2 - x_perp.normsq()`. */
  lemma KeptRayHasRoot(s: Sphere, origin: V3, dir: V3, j: nat)
    requires SameLen(origin, dir) && j < origin.Len() && !Missed(s, origin, dir, j)
    ensures s.RadiusSq() - PerpSq(s, origin, dir, j) >= 0.0
  {
  }

  // ---------------------------------------------------------------------
  // The perpendicular test against the literal 1

  /** Radius 2 at the origin, a ray from (-5, 1.5, 0) along +x: the ray
      passes 1.5 from the centre and enters the sphere, yet the test as
      written discards it because 1.5^2 > 1. */
  lemma AsWrittenMissesHit()
    ensures var s, o, d := Sphere(Point(0.0, 0.0, 0.0), 2.0), Point(-5.0, 1.5, 0.0), Point(1.0, 0.0, 0.0);
      && UnitAt(d, 0)
      && MissedAsWritten(s, o, d, 0) && !Missed(s, o, d, 0)
      && OriginSq(s, o, 0) > s.RadiusSq() && PointSq(s, o, d, 0, 5.0) <= s.RadiusSq()
  {
    var s, o, d := Sphere(Point(0.0, 0.0, 0.0), 2.0), Point(-5.0, 1.5, 0.0), Point(1.0, 0.0, 0.0);
    RayScalars(s, o, d, 0);
    var x := Offset(s, o);
    assert x.x[0] == -5.0 && x.y[0] == 1.5 && x.z[0] == 0.0;
  }

  /** Radius 0.5 at the origin, a ray from (-5, 0.7, 0) along +x: the ray
      passes 0.7 from the centre and never meets the sphere, yet the test as
      written keeps it, with 0.25 - 0.49 < 0 under the square root. */
  lemma AsWrittenKeepsMiss()
    ensures var s, o, d := Sphere(Point(0.0, 0.0, 0.0), 0.5), Point(-5.0, 0.7, 0.0), Point(1.0, 0.0, 0.0);
      && UnitAt(d, 0)
      && !MissedAsWritten(s, o, d, 0) && Missed(s, o, d, 0)
      && s.RadiusSq() - PerpSq(s, o, d, 0) < 0.0
  {
    var s, o, d := Sphere(Point(0.0, 0.0, 0.0), 0.5), Point(-5.0, 0.7, 0.0), Point(1.0, 0.0, 0.0);
    RayScalars(s, o, d, 0);
    var x := Offset(s, o);
    assert x.x[0] == -5.0 && x.y[0] == 0.7 && x.z[0] == 0.0;
  }
}
