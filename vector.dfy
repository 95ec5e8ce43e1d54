/** `V3` of raytrace/vector.py: a batch of 3-vectors held axis by axis, as a
    value (the arithmetic, which builds new batches) and as `V3Array`, a batch
    whose three axis arrays `place` and `copyfrom` overwrite in place.
    A V3 of plain numbers is a batch of length one (`Vec`). */
module Vector {
  import opened Masked

  // Elementwise arithmetic on one axis.
  function Plus(s: seq<real>, t: seq<real>): (r: seq<real>)
    requires |s| == |t|
    ensures |r| == |s|
  {
    seq(|s|, i requires 0 <= i < |s| => s[i] + t[i])
  }

  function Minus(s: seq<real>, t: seq<real>): (r: seq<real>)
    requires |s| == |t|
    ensures |r| == |s|
  {
    seq(|s|, i requires 0 <= i < |s| => s[i] - t[i])
  }

  function Times(s: seq<real>, t: seq<real>): (r: seq<real>)
    requires |s| == |t|
    ensures |r| == |s|
  {
    seq(|s|, i requires 0 <= i < |s| => s[i] * t[i])
  }

  function TimesScalar(s: seq<real>, c: real): (r: seq<real>)
    ensures |r| == |s|
  {
    seq(|s|, i requires 0 <= i < |s| => c * s[i])
  }

  datatype V3 = V3(x: seq<real>, y: seq<real>, z: seq<real>)
  {
    /** The three axes have one length, the batch size. */
    predicate Valid() { |x| == |y| == |z| }

    function Len(): nat { |x| }

    /** `==` on V3s of numbers and `allEqual` on batches: every axis agrees. */
    function AllEqual(other: V3): (b: bool)
      requires SameLen(this, other)
      ensures b <==> this == other
    {
      (forall i :: 0 <= i < Len() ==> x[i] == other.x[i] && y[i] == other.y[i] && z[i] == other.z[i])
    }

    function Add(other: V3): (r: V3)
      requires SameLen(this, other)
      ensures SameLen(r, this)
    {
      V3(Plus(x, other.x), Plus(y, other.y), Plus(z, other.z))
    }

    function Sub(other: V3): (r: V3)
      requires SameLen(this, other)
      ensures SameLen(r, this)
    {
      V3(Minus(x, other.x), Minus(y, other.y), Minus(z, other.z))
    }

    /** `*` by another V3: axis by axis. */
    function Mul(other: V3): (r: V3)
      requires SameLen(this, other)
      ensures SameLen(r, this)
    {
      V3(Times(x, other.x), Times(y, other.y), Times(z, other.z))
    }

    /** `scale(c)`, and `*` by a number. */
    function Scale(c: real): (r: V3)
      requires Valid()
      ensures SameLen(r, this)
    {
      V3(TimesScalar(x, c), TimesScalar(y, c), TimesScalar(z, c))
    }

    /** `scale(s)` and `*` by an array: the i-th vector times s[i]. */
    function ScaleEach(s: seq<real>): (r: V3)
      requires Valid() && |s| == Len()
      ensures SameLen(r, this)
    {
      V3(Times(s, x), Times(s, y), Times(s, z))
    }

    function Dot(other: V3): (r: seq<real>)
      requires SameLen(this, other)
      ensures |r| == Len()
    {
      Plus(Plus(Times(x, other.x), Times(y, other.y)), Times(z, other.z))
    }

    /** `normsq()` is `dot(self)`, never negative. */
    function NormSq(): (r: seq<real>)
      requires Valid()
      ensures r == Dot(this)
      ensures forall i :: 0 <= i < |r| ==> r[i] >= 0.0
    {
      Dot(this)
    }

    function Cross(other: V3): (r: V3)
      requires SameLen(this, other)
      ensures SameLen(r, this)
    {
      V3(Minus(Times(y, other.z), Times(z, other.y)),
         Minus(Times(z, other.x), Times(x, other.z)),
         Minus(Times(x, other.y), Times(y, other.x)))
    }

    /** `mapToXYZ(f)`: f applied to each axis on its own. */
    function MapToXYZ(f: seq<real> -> seq<real>): (r: V3)
      ensures r.x == f(x) && r.y == f(y) && r.z == f(z)
    {
      V3(f(x), f(y), f(z))
    }

    /** `repeat(n)` with `np.repeat` semantics on every axis. */
    function Repeat(n: nat): (r: V3)
      requires Valid()
      ensures r.Valid() && r.Len() == Len() * n
    {
      V3(Masked.Repeat(x, n), Masked.Repeat(y, n), Masked.Repeat(z, n))
    }

    /** `extract(mask)`: the vectors at true positions, in order. */
    function Extract(mask: seq<bool>): (r: V3)
      requires Valid() && |mask| == Len()
      ensures r.Valid() && r.Len() == Count(mask)
    {
      V3(Masked.Extract(mask, x), Masked.Extract(mask, y), Masked.Extract(mask, z))
    }

    /** The value `place(mask, other)` leaves behind when NumPy accepts it. */
    function Place(mask: seq<bool>, other: V3): (r: V3)
      requires Valid() && other.Valid() && PlaceDefined(Len(), mask, other.x)
      ensures SameLen(r, this)
    {
      V3(Masked.Place(x, mask, other.x), Masked.Place(y, mask, other.y), Masked.Place(z, mask, other.z))
    }

    /** The value `copyfrom(src, where=mask)` leaves behind. */
    function CopyFrom(src: V3, mask: seq<bool>): (r: V3)
      requires SameLen(this, src) && |mask| == Len()
      ensures SameLen(r, this)
    {
      V3(CopyTo(x, src.x, mask), CopyTo(y, src.y, mask), CopyTo(z, src.z, mask))
    }
  }

  predicate SameLen(a: V3, b: V3)
  {
    a.Valid() && b.Valid() && a.Len() == b.Len()
  }

  /** A V3 of plain numbers. */
  type Vec = v: V3 | v.Valid() && v.Len() == 1 witness V3([0.0], [0.0], [0.0])

  function Point(a: real, b: real, c: real): (v: Vec)
    ensures v.x[0] == a && v.y[0] == b && v.z[0] == c
  {
    V3([a], [b], [c])
  }

  /** n copies of one vector: what `v.repeat(n)` gives for a V3 of numbers,
      and what NumPy broadcasting makes of v against a batch of n. */
  function Fill(v: Vec, n: nat): (r: V3)
    ensures r.Valid() && r.Len() == n
  {
    V3(seq(n, _ => v.x[0]), seq(n, _ => v.y[0]), seq(n, _ => v.z[0]))
  }

  /** Repeating a single vector n times gives n copies of it. */
  lemma FillIsRepeat(v: Vec, n: nat)
    ensures v.Repeat(n) == Fill(v, n)
    ensures forall i :: 0 <= i < n ==> Fill(v, n).x[i] == v.x[0] && Fill(v, n).y[i] == v.y[0] && Fill(v, n).z[i] == v.z[0]
  {
    RepeatOne(v.x[0], n);
    RepeatOne(v.y[0], n);
    RepeatOne(v.z[0], n);
    assert v.x == [v.x[0]] && v.y == [v.y[0]] && v.z == [v.z[0]];
  }

  // ---------------------------------------------------------------------
  // Properties of the arithmetic

  lemma ScaleComponentwise(a: V3, c: real, i: nat)
    requires a.Valid() && i < a.Len()
    ensures a.Scale(c).x[i] == c * a.x[i] && a.Scale(c).y[i] == c * a.y[i] && a.Scale(c).z[i] == c * a.z[i]
  {
  }

  /** `-` undoes `+`. */
  lemma AddSub(a: V3, b: V3)
    requires SameLen(a, b)
    ensures a.Add(b).Sub(b) == a
  {
    assert a.Add(b).Sub(b).x == a.x;
    assert a.Add(b).Sub(b).y == a.y;
    assert a.Add(b).Sub(b).z == a.z;
  }

  lemma AddCommutes(a: V3, b: V3)
    requires SameLen(a, b)
    ensures a.Add(b) == b.Add(a)
  {
  }

  lemma DotSymmetric(a: V3, b: V3)
    requires SameLen(a, b)
    ensures a.Dot(b) == b.Dot(a)
  {
  }

  lemma TripleProductVanishes(a1: real, a2: real, a3: real, b1: real, b2: real, b3: real)
    ensures (a2 * b3 - a3 * b2) * a1 + (a3 * b1 - a1 * b3) * a2 + (a1 * b2 - a2 * b1) * a3 == 0.0
    ensures (a2 * b3 - a3 * b2) * b1 + (a3 * b1 - a1 * b3) * b2 + (a1 * b2 - a2 * b1) * b3 == 0.0
  {
  }

  /** The cross product is orthogonal to both operands. */
  lemma CrossOrthogonal(a: V3, b: V3)
    requires SameLen(a, b)
    ensures forall i :: 0 <= i < a.Len() ==> a.Cross(b).Dot(a)[i] == 0.0 && a.Cross(b).Dot(b)[i] == 0.0
  {
    forall i | 0 <= i < a.Len()
      ensures a.Cross(b).Dot(a)[i] == 0.0 && a.Cross(b).Dot(b)[i] == 0.0
    {
      TripleProductVanishes(a.x[i], a.y[i], a.z[i], b.x[i], b.y[i], b.z[i]);
    }
  }

  lemma CrossAnticommutes(a: V3, b: V3)
    requires SameLen(a, b)
    ensures a.Cross(b) == b.Cross(a).Scale(-1.0)
  {
  }

  /** The worked examples for V3s of numbers. */
  lemma ArithmeticExamples()
    ensures Point(1.0, 2.0, 3.0).Add(Point(-1.0, 1.0, -1.0)) == Point(0.0, 3.0, 2.0)
    ensures Point(1.0, 2.0, 3.0).Sub(Point(-1.0, 1.0, -1.0)) == Point(2.0, 1.0, 4.0)
    ensures Point(1.0, 2.0, 3.0).Mul(Point(-1.0, 1.0, -1.0)) == Point(-1.0, 2.0, -3.0)
    ensures Point(1.0, 2.0, 3.0).Scale(4.0) == Point(4.0, 8.0, 12.0)
    ensures Point(1.0, 2.0, 3.0).Dot(Point(-1.0, 1.0, -1.0)) == [-2.0]
    ensures Point(1.0, 4.0, 8.0).NormSq() == [81.0]
    ensures Point(1.0, 2.0, 3.0).Cross(Point(-1.0, 1.0, -1.0)) == Point(-5.0, -2.0, 3.0)
  {
    assert Point(1.0, 2.0, 3.0).Add(Point(-1.0, 1.0, -1.0)).x == [0.0];
    assert Point(1.0, 2.0, 3.0).Sub(Point(-1.0, 1.0, -1.0)).x == [2.0];
    assert Point(1.0, 2.0, 3.0).Mul(Point(-1.0, 1.0, -1.0)).x == [-1.0];
    assert Point(1.0, 2.0, 3.0).Scale(4.0).x == [4.0];
    assert Point(1.0, 2.0, 3.0).Cross(Point(-1.0, 1.0, -1.0)).x == [-5.0];
  }

  /** Mapping `np.repeat(axis, n)` over the axes is `repeat(n)`. */
  lemma MapRepeatIsRepeat(a: V3, n: nat)
    requires a.Valid()
    ensures a.MapToXYZ(s => Masked.Repeat(s, n)) == a.Repeat(n)
  {
  }

  lemma RepeatExample()
    ensures Point(1.0, 2.0, 3.0).Repeat(2) == V3([1.0, 1.0], [2.0, 2.0], [3.0, 3.0])
  {
    RepeatOne(1.0, 2);
    RepeatOne(2.0, 2);
    RepeatOne(3.0, 2);
  }

  /** On a batch, `repeat(2)` repeats each vector twice, keeping their order. */
  lemma BatchRepeatExample()
    ensures V3([0.0, 1.0], [1.0, 2.0], [2.0, 3.0]).Repeat(2)
      == V3([0.0, 0.0, 1.0, 1.0], [1.0, 1.0, 2.0, 2.0], [2.0, 2.0, 3.0, 3.0])
  {
    RepeatPair(0.0, 1.0);
    RepeatPair(1.0, 2.0);
    RepeatPair(2.0, 3.0);
  }

  lemma RepeatPair(a: real, b: real)
    ensures Masked.Repeat([a, b], 2) == [a, a, b, b]
  {
    RepeatOne(b, 2);
    assert [a, b][1..] == [b];
  }

  // ---------------------------------------------------------------------
  // Masked operations on V3s: the round trips hold axis by axis.

  lemma V3ExtractAt(a: V3, mask: seq<bool>, i: nat)
    requires a.Valid() && |mask| == a.Len() && i < a.Len() && mask[i]
    ensures Count(mask[..i]) < Count(mask)
    ensures a.Extract(mask).x[Count(mask[..i])] == a.x[i]
    ensures a.Extract(mask).y[Count(mask[..i])] == a.y[i]
    ensures a.Extract(mask).z[Count(mask[..i])] == a.z[i]
  {
    ExtractAt(mask, a.x, i);
    ExtractAt(mask, a.y, i);
    ExtractAt(mask, a.z, i);
  }

  lemma V3ExtractPlace(a: V3, mask: seq<bool>, w: V3)
    requires a.Valid() && w.Valid() && |mask| == a.Len() && w.Len() == Count(mask)
    ensures a.Place(mask, w).Extract(mask) == w
  {
    ExtractPlace(a.x, mask, w.x);
    ExtractPlace(a.y, mask, w.y);
    ExtractPlace(a.z, mask, w.z);
  }

  lemma V3PlaceExtract(a: V3, mask: seq<bool>)
    requires a.Valid() && |mask| == a.Len()
    ensures PlaceDefined(a.Len(), mask, a.Extract(mask).x)
    ensures a.Place(mask, a.Extract(mask)) == a
  {
    PlaceExtract(a.x, mask);
    PlaceExtract(a.y, mask);
    PlaceExtract(a.z, mask);
  }

  lemma V3CopyFromIsPlace(a: V3, src: V3, mask: seq<bool>)
    requires SameLen(a, src) && |mask| == a.Len()
    ensures PlaceDefined(a.Len(), mask, src.Extract(mask).x)
    ensures a.CopyFrom(src, mask) == a.Place(mask, src.Extract(mask))
  {
    CopyToIsPlace(a.x, src.x, mask);
    CopyToIsPlace(a.y, src.y, mask);
    CopyToIsPlace(a.z, src.z, mask);
  }

  /** Placing a V3 of numbers writes that vector to every true position. */
  lemma V3PlaceOne(a: V3, mask: seq<bool>, v: Vec)
    requires a.Valid() && |mask| == a.Len()
    ensures PlaceDefined(a.Len(), mask, v.x)
    ensures a.Place(mask, v) == a.CopyFrom(Fill(v, a.Len()), mask)
  {
    assert v.x == [v.x[0]] && v.y == [v.y[0]] && v.z == [v.z[0]];
    PlaceOne(a.x, mask, v.x[0]);
    PlaceOne(a.y, mask, v.y[0]);
    PlaceOne(a.z, mask, v.z[0]);
    assert Fill(v, a.Len()).x == seq(a.Len(), _ => v.x[0]);
    assert Fill(v, a.Len()).y == seq(a.Len(), _ => v.y[0]);
    assert Fill(v, a.Len()).z == seq(a.Len(), _ => v.z[0]);
  }

  /** A V3 whose axes are NumPy arrays that `place` and `copyfrom` overwrite
      in place. The array references never change; their contents do. */
  class V3Array {
    const x: array<real>
    const y: array<real>
    const z: array<real>

    ghost predicate Valid()
    {
      x.Length == y.Length == z.Length && x != y && y != z && x != z
    }

    function Len(): nat { x.Length }

    function Value(): (v: V3)
      reads x, y, z
      requires Valid()
      ensures v.Valid() && v.Len() == Len()
    {
      V3(x[..], y[..], z[..])
    }

    /** Fresh arrays holding the batch v. */
    constructor (v: V3)
      requires v.Valid()
      ensures Valid() && Value() == v
      ensures fresh(x) && fresh(y) && fresh(z)
    {
      x := new real[v.Len()](i requires 0 <= i < v.Len() => v.x[i]);
      y := new real[v.Len()](i requires 0 <= i < v.Len() => v.y[i]);
      z := new real[v.Len()](i requires 0 <= i < v.Len() => v.z[i]);
    }

    /** `place(mask, other)`: `np.place` on each axis. NumPy accepts or
        refuses the three alike, since the axes share their lengths. */
    method Place(mask: seq<bool>, other: V3) returns (ok: bool)
      requires Valid() && other.Valid()
      modifies x, y, z
      ensures Valid()
      ensures ok == PlaceDefined(Len(), mask, other.x)
      ensures Value() == if ok then old(Value()).Place(mask, other) else old(Value())
    {
      ok := PlaceInto(x, mask, other.x);
      if ok {
        var _ := PlaceInto(y, mask, other.y);
        var _ := PlaceInto(z, mask, other.z);
      }
    }

    /** `copyfrom(src, where=mask)`: `np.copyto` on each axis. */
    method CopyFrom(src: V3, mask: seq<bool>)
      requires Valid() && src.Valid() && src.Len() == Len() && |mask| == Len()
      modifies x, y, z
      ensures Valid()
      ensures Value() == old(Value()).CopyFrom(src, mask)
    {
      CopyInto(x, src.x, mask);
      CopyInto(y, src.y, mask);
      CopyInto(z, src.z, mask);
    }
  }
}
