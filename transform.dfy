/** `TranslationHelper` of raytrace/transform.py: a translation by a fixed
    vector `delta`, which is never changed after construction. */
module Transform {
  import opened Vector

  datatype Translation = Translation(delta: Vec)
  {
    /** `inverse()`: the translation by `delta * -1.0`. */
    function Inverse(): Translation
    {
      Translation(delta.Scale(-1.0))
    }

    /** `apply(v)`: `v + delta`, the one delta added to every vector of the batch. */
    function Apply(v: V3): (r: V3)
      requires v.Valid()
      ensures SameLen(r, v)
    {
      v.Add(Fill(delta, v.Len()))
    }

    /** Differences of points are not moved by a translation. */
    function ApplyToDifference(v: V3): V3
    {
      v
    }

    /** Neither are normals. */
    function ApplyToNormal(v: V3): V3
    {
      v
    }
  }

  /** The inverse undoes the translation, in both orders. */
  lemma InverseRoundTrip(t: Translation, v: V3)
    requires v.Valid()
    ensures t.Inverse().Apply(t.Apply(v)) == v
    ensures t.Apply(t.Inverse().Apply(v)) == v
  {
  }

  /** Inverting twice gives back the same `delta`. */
  lemma InverseInverse(t: Translation)
    ensures t.Inverse().Inverse().delta == t.delta
    ensures t.Inverse().Inverse() == t
  {
    assert t.Inverse().Inverse().delta.x == t.delta.x;
  }

  /** The difference of two translated points is the translated difference. */
  lemma ApplyToDifferenceOfPoints(t: Translation, a: V3, b: V3)
    requires SameLen(a, b)
    ensures t.Apply(a).Sub(t.Apply(b)) == t.ApplyToDifference(a.Sub(b))
  {
  }

  /** Differences and normals are left alone by a translation and by its inverse. */
  lemma DifferencesAndNormalsFixed(t: Translation, v: V3)
    ensures t.ApplyToDifference(v) == v && t.Inverse().ApplyToDifference(v) == v
    ensures t.ApplyToNormal(v) == v && t.Inverse().ApplyToNormal(v) == v
  {
  }

  /** With delta (-1, 1, 2.5), (10, 11, 12) is moved to (9, 12, 14.5) and back. */
  lemma TranslationExample()
    ensures Translation(Point(-1.0, 1.0, 2.5)).Apply(Point(10.0, 11.0, 12.0)) == Point(9.0, 12.0, 14.5)
    ensures Translation(Point(-1.0, 1.0, 2.5)).Inverse().Apply(Point(9.0, 12.0, 14.5)) == Point(10.0, 11.0, 12.0)
  {
    var t := Translation(Point(-1.0, 1.0, 2.5));
    assert t.Apply(Point(10.0, 11.0, 12.0)).x == [9.0];
    assert t.Apply(Point(10.0, 11.0, 12.0)).y == [12.0];
    assert t.Apply(Point(10.0, 11.0, 12.0)).z == [14.5];
    assert t.Inverse().Apply(Point(9.0, 12.0, 14.5)).x == [10.0];
    assert t.Inverse().Apply(Point(9.0, 12.0, 14.5)).y == [11.0];
    assert t.Inverse().Apply(Point(9.0, 12.0, 14.5)).z == [12.0];
  }
}
