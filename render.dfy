/** The reflective renderer of raytrace/render.py: nearest hits, lighting,
    materials, a bounded recursion on the reflective rays, and the final
    composition; and `CollisionResult`, the pair of hit buffers it defines. */
module Renderer {
  import opened Masked
  import opened Vector
  import opened Distance
  import opened Material
  import opened Scene

  /** `CollisionResult`: a distance buffer and a normal buffer of one size. */
  class CollisionResult {
    const dist: array<Dist>
    const norm: V3Array

    ghost predicate Valid()
      reads this, norm
    {
      norm.Valid() && dist.Length == norm.Len()
    }

    function Value(): (h: Hits)
      reads this, dist, norm, norm.x, norm.y, norm.z
      requires Valid()
      ensures h.SizedFor(dist.Length)
    {
      Hits(dist[..], norm.Value())
    }

    /** `CollisionResult(area)`: `area` distances `inf` and `area` zero normals. */
    constructor (area: nat)
      ensures Valid() && dist.Length == area
      ensures Value() == Hits(seq(area, _ => Inf), Fill(Point(0.0, 0.0, 0.0), area))
      ensures fresh(dist) && fresh(norm) && fresh(norm.x) && fresh(norm.y) && fresh(norm.z)
    {
      dist := new Dist[area](_ => Inf);
      norm := new V3Array(Fill(Point(0.0, 0.0, 0.0), area));
    }

    /** `place(mask, dist, norm)`: `np.place` on the distances, then on the
        normals. Each step that NumPy rejects stops with `ok == false`. */
    method Place(mask: seq<bool>, d: seq<Dist>, n: V3) returns (ok: bool)
      requires Valid() && n.Valid()
      modifies dist, norm.x, norm.y, norm.z
      ensures Valid()
      ensures ok == (PlaceDefined(dist.Length, mask, d) && PlaceDefined(dist.Length, mask, n.x))
      ensures dist[..] == if PlaceDefined(dist.Length, mask, d) then Masked.Place(old(dist[..]), mask, d) else old(dist[..])
      ensures norm.Value() == if ok then old(norm.Value()).Place(mask, n) else old(norm.Value())
    {
      ok := PlaceInto(dist, mask, d);
      if ok {
        ok := norm.Place(mask, n);
      }
    }

    /** `copyfrom(mask, other)`: where the mask holds, take other's hit. */
    method CopyFrom(mask: seq<bool>, other: Hits)
      requires Valid() && other.SizedFor(dist.Length) && |mask| == dist.Length
      modifies dist, norm.x, norm.y, norm.z
      ensures Valid()
      ensures Value() == Hits(CopyTo(old(dist[..]), other.dist, mask), old(norm.Value()).CopyFrom(other.norm, mask))
    {
      CopyInto(dist, other.dist, mask);
      norm.CopyFrom(other.norm, mask);
    }
  }

  // ---------------------------------------------------------------------
  // The pieces of render()

  /** `reflectivity > 0.0`. */
  function ReflectiveMask(reflectivity: seq<real>): (mask: seq<bool>)
    ensures |mask| == |reflectivity|
  {
    seq(|reflectivity|, j requires 0 <= j < |reflectivity| => reflectivity[j] > 0.0)
  }

  /** A distance as a number. `inf` stands for a ray that hit nothing: no such
      ray is reflective, so its entry is never extracted; it is given 0. */
  function Finite(d: Dist): real
  {
    match d
    case Fin(v) => v
    case Inf => 0.0
  }

  /** `ray[0] + ray[1] * distance`: the hit points. */
  function HitPoints(rays: Rays, distance: seq<Dist>): (p: V3)
    requires rays.Valid() && |distance| == rays.Len()
    ensures SameLen(p, rays.origin)
  {
    rays.origin.Add(rays.dir.ScaleEach(seq(|distance|, j requires 0 <= j < |distance| => Finite(distance[j]))))
  }

  /** The reflected batch: from each reflective hit point along
      `incident - unit(normal) * incident.dot(normal) * 2`. */
  function ReflectedRays(rays: Rays, distance: seq<Dist>, normal: V3, mask: seq<bool>, normalize: V3 -> V3): (r: Rays)
    requires rays.Valid() && |distance| == rays.Len() && SameLen(normal, rays.origin) && |mask| == rays.Len()
    requires SizePreserving(normalize)
    ensures r.Valid() && r.Len() == Count(mask)
  {
    var position := HitPoints(rays, distance).Extract(mask);
    var incident := rays.dir.Extract(mask);
    var normals := normal.Extract(mask);
    Rays(position, incident.Sub(normalize(normals).ScaleEach(incident.Dot(normals)).Scale(2.0)))
  }

  /** Hit point j is origin j moved `distance[j]` along direction j. */
  lemma HitPointsAt(rays: Rays, distance: seq<Dist>, j: nat)
    requires rays.Valid() && |distance| == rays.Len() && j < rays.Len()
    ensures var p, t := HitPoints(rays, distance), Finite(distance[j]);
      && p.x[j] == rays.origin.x[j] + t * rays.dir.x[j]
      && p.y[j] == rays.origin.y[j] + t * rays.dir.y[j]
      && p.z[j] == rays.origin.z[j] + t * rays.dir.z[j]
  {
  }

  /** `incident.dot(normal)` of ray j. */
  function IncidentDot(rays: Rays, normal: V3, j: nat): real
    requires rays.Valid() && SameLen(normal, rays.origin) && j < rays.Len()
  {
    rays.dir.x[j] * normal.x[j] + rays.dir.y[j] * normal.y[j] + rays.dir.z[j] * normal.z[j]
  }

  /** Reflective ray j becomes reflected ray k, its rank among the reflective
      rays: it starts at ray j's hit point and leaves along
      `incident - 2 * incident.dot(normal) * u`, where u is entry k of the
      normalised reflective normals. */
  lemma ReflectedRaysAt(rays: Rays, distance: seq<Dist>, normal: V3, mask: seq<bool>, normalize: V3 -> V3, j: nat)
    requires rays.Valid() && |distance| == rays.Len() && SameLen(normal, rays.origin) && |mask| == rays.Len()
    requires SizePreserving(normalize) && j < rays.Len() && mask[j]
    ensures var r, k, u := ReflectedRays(rays, distance, normal, mask, normalize), Count(mask[..j]), normalize(normal.Extract(mask));
      var t, d := Finite(distance[j]), IncidentDot(rays, normal, j);
      && k < r.Len() && u.Valid() && k < u.Len()
      && r.origin.x[k] == rays.origin.x[j] + t * rays.dir.x[j]
      && r.origin.y[k] == rays.origin.y[j] + t * rays.dir.y[j]
      && r.origin.z[k] == rays.origin.z[j] + t * rays.dir.z[j]
      && r.dir.x[k] == rays.dir.x[j] - 2.0 * (d * u.x[k])
      && r.dir.y[k] == rays.dir.y[j] - 2.0 * (d * u.y[k])
      && r.dir.z[k] == rays.dir.z[j] - 2.0 * (d * u.z[k])
  {
    var k := Count(mask[..j]);
    V3ExtractAt(HitPoints(rays, distance), mask, j);
    V3ExtractAt(rays.dir, mask, j);
    V3ExtractAt(normal, mask, j);
    HitPointsAt(rays, distance, j);
    var incident, normals := rays.dir.Extract(mask), normal.Extract(mask);
    assert incident.Dot(normals)[k] == IncidentDot(rays, normal, j);
  }

  /** `1.0 - reflectivity`. */
  function Complement(reflectivity: seq<real>): (r: seq<real>)
    ensures |r| == |reflectivity|
  {
    seq(|reflectivity|, j requires 0 <= j < |reflectivity| => 1.0 - reflectivity[j])
  }

  /** `raster += matte * lighting * (1 - r)`, then `raster += reflective * r`,
      from a black raster. */
  function Compose(sh: Shading, reflective: V3): (raster: V3)
    requires sh.SizedFor(|sh.index|) && SameLen(reflective, sh.matte)
    ensures SameLen(raster, sh.matte)
  {
    var n := |sh.index|;
    Fill(Point(0.0, 0.0, 0.0), n)
      .Add(sh.matte.ScaleEach(sh.lighting).ScaleEach(Complement(sh.reflectivity)))
      .Add(reflective.ScaleEach(sh.reflectivity))
  }

  /** Each colour is `matte * lighting * (1 - r) + reflective * r`. */
  lemma ComposeAt(sh: Shading, reflective: V3, j: nat)
    requires sh.SizedFor(|sh.index|) && SameLen(reflective, sh.matte) && j < |sh.index|
    ensures var raster, r, l := Compose(sh, reflective), sh.reflectivity[j], sh.lighting[j];
      && raster.x[j] == Blend(sh.matte.x[j], l, r, reflective.x[j])
      && raster.y[j] == Blend(sh.matte.y[j], l, r, reflective.y[j])
      && raster.z[j] == Blend(sh.matte.z[j], l, r, reflective.z[j])
  {
    var r, l := sh.reflectivity[j], sh.lighting[j];
    var n := |sh.index|;
    var lit := sh.matte.ScaleEach(sh.lighting);
    var matte := lit.ScaleEach(Complement(sh.reflectivity));
    var mirror := reflective.ScaleEach(sh.reflectivity);
    var zero := Fill(Point(0.0, 0.0, 0.0), n);
    assert matte.x[j] == (1.0 - r) * (l * sh.matte.x[j]);
    assert matte.y[j] == (1.0 - r) * (l * sh.matte.y[j]);
    assert matte.z[j] == (1.0 - r) * (l * sh.matte.z[j]);
    assert zero.Add(matte).Add(mirror).x[j] == 0.0 + matte.x[j] + r * reflective.x[j];
    assert zero.Add(matte).Add(mirror).y[j] == 0.0 + matte.y[j] + r * reflective.y[j];
    assert zero.Add(matte).Add(mirror).z[j] == 0.0 + matte.z[j] + r * reflective.z[j];
  }

  /** One channel of the composition. */
  function Blend(matte: real, lighting: real, r: real, reflective: real): real
  {
    matte * lighting * (1.0 - r) + reflective * r
  }

  /** With r = 0 a channel is the matte colour under the lighting; with r = 1
      only the reflection remains. */
  lemma BlendExtremes(matte: real, lighting: real, reflective: real)
    ensures Blend(matte, lighting, 0.0, reflective) == matte * lighting
    ensures Blend(matte, lighting, 1.0, reflective) == reflective
  {
  }

  // ---------------------------------------------------------------------
  // The recursion

  /** The raster `render` returns for a precomputed ray batch, or None where
      a material lookup raises KeyError. */
  function RenderSpec<G(!new)>(scene: Scene<G>, intersect: (G, Rays) -> Hits, normalize: V3 -> V3, rays: Rays, bounce: int): (r: Option<V3>)
    requires rays.Valid() && WellSized(intersect) && SizePreserving(normalize)
    ensures r.Some? <==> MaterialsKnown(scene)
    ensures r.Some? ==> r.value.Valid() && r.value.Len() == rays.Len()
    decreases if bounce > 0 then bounce else 0, 1
  {
    if !MaterialsKnown(scene) then None
    else Some(Compose(Shade(scene, intersect, normalize, rays), ReflectiveComponent(scene, intersect, normalize, rays, bounce)))
  }

  /** `reflective_component`: black, except that with bounces left the
      colours of the reflected batch are placed, in order, at the reflective
      rays. */
  function ReflectiveComponent<G(!new)>(scene: Scene<G>, intersect: (G, Rays) -> Hits, normalize: V3 -> V3, rays: Rays, bounce: int): (c: V3)
    requires rays.Valid() && WellSized(intersect) && SizePreserving(normalize) && MaterialsKnown(scene)
    ensures c.Valid() && c.Len() == rays.Len()
    decreases if bounce > 0 then bounce else 0, 0
  {
    var n := rays.Len();
    var sh := Shade(scene, intersect, normalize, rays);
    var mask := ReflectiveMask(sh.reflectivity);
    if bounce > 0 && Any(mask) then
      var sub := ReflectedRays(rays, sh.distance, sh.normal, mask, normalize);
      Fill(Point(0.0, 0.0, 0.0), n).Place(mask, RenderSpec(scene, intersect, normalize, sub, bounce - 1).value)
    else
      Fill(Point(0.0, 0.0, 0.0), n)
  }

  /** How many times `render` calls itself below this call. */
  function BounceDepth<G(!new)>(scene: Scene<G>, intersect: (G, Rays) -> Hits, normalize: V3 -> V3, rays: Rays, bounce: int): (d: nat)
    requires rays.Valid() && WellSized(intersect) && SizePreserving(normalize)
    ensures d <= if bounce > 0 then bounce else 0
    ensures d > 0 ==>
      bounce > 0 && MaterialsKnown(scene) && Any(ReflectiveMask(Shade(scene, intersect, normalize, rays).reflectivity))
    decreases if bounce > 0 then bounce else 0
  {
    if !MaterialsKnown(scene) then 0
    else
      var sh := Shade(scene, intersect, normalize, rays);
      var mask := ReflectiveMask(sh.reflectivity);
      if bounce > 0 && Any(mask) then
        1 + BounceDepth(scene, intersect, normalize, ReflectedRays(rays, sh.distance, sh.normal, mask, normalize), bounce - 1)
      else 0
  }

  /** The colour of ray j. A ray that is not reflective, or that is out of
      bounces, gets `matte * lighting * (1 - r)`; a reflective ray with
      bounces left adds `r` times the colour of its reflected ray, which is
      entry Count(mask[..j]) of the recursive batch. */
  lemma RenderAt<G(!new)>(scene: Scene<G>, intersect: (G, Rays) -> Hits, normalize: V3 -> V3, rays: Rays, bounce: int, j: nat)
    requires rays.Valid() && WellSized(intersect) && SizePreserving(normalize) && MaterialsKnown(scene)
    requires j < rays.Len()
    ensures var sh := Shade(scene, intersect, normalize, rays);
      var raster := RenderSpec(scene, intersect, normalize, rays, bounce).value;
      var mask := ReflectiveMask(sh.reflectivity);
      var r, l := sh.reflectivity[j], sh.lighting[j];
      && (!(bounce > 0 && mask[j]) ==>
            && raster.x[j] == Blend(sh.matte.x[j], l, r, 0.0)
            && raster.y[j] == Blend(sh.matte.y[j], l, r, 0.0)
            && raster.z[j] == Blend(sh.matte.z[j], l, r, 0.0))
      && (bounce > 0 && mask[j] ==>
            var sub := ReflectedRays(rays, sh.distance, sh.normal, mask, normalize);
            var bounced := RenderSpec(scene, intersect, normalize, sub, bounce - 1).value;
            && Count(mask[..j]) < bounced.Len()
            && raster.x[j] == Blend(sh.matte.x[j], l, r, bounced.x[Count(mask[..j])])
            && raster.y[j] == Blend(sh.matte.y[j], l, r, bounced.y[Count(mask[..j])])
            && raster.z[j] == Blend(sh.matte.z[j], l, r, bounced.z[Count(mask[..j])]))
  {
    var sh := Shade(scene, intersect, normalize, rays);
    var n := rays.Len();
    var mask := ReflectiveMask(sh.reflectivity);
    var reflective := ReflectiveComponent(scene, intersect, normalize, rays, bounce);
    ComposeAt(sh, reflective, j);
    if bounce > 0 && Any(mask) && mask[j] {
      RankBelowCount(mask, j);
      ModSmall(Count(mask[..j]), Count(mask));
    }
  }

  /** A ray that every object misses renders black, with any bounce count. */
  lemma MissRendersBlack<G(!new)>(scene: Scene<G>, intersect: (G, Rays) -> Hits, normalize: V3 -> V3, rays: Rays, bounce: int, j: nat)
    requires rays.Valid() && WellSized(intersect) && SizePreserving(normalize) && MaterialsKnown(scene)
    requires j < rays.Len()
    requires forall k :: 0 <= k < |scene.objects| ==> intersect(scene.objects[k].geometry, rays).dist[j] == Inf
    ensures var raster := RenderSpec(scene, intersect, normalize, rays, bounce).value;
      raster.x[j] == 0.0 && raster.y[j] == 0.0 && raster.z[j] == 0.0
  {
    ShadeInfIffAllMiss(scene, intersect, normalize, rays, j);
    ShadeMiss(scene, intersect, normalize, rays, j);
    RenderAt(scene, intersect, normalize, rays, bounce, j);
  }

  // ---------------------------------------------------------------------
  // The methods

  /** `CameraPrecomputed(rays).area()` as written: the `len` of the pair
      `(positions, directions)`, whichever rays it holds. */
  function PrecomputedAreaAsWritten(rays: Rays): (n: nat)
  {
    |[rays.origin, rays.dir]|
  }

  /** The area a precomputed camera is meant to report: its number of rays. */
  function PrecomputedArea(rays: Rays): (n: nat)
    requires rays.Valid()
    ensures n == |rays.origin.x| == |rays.dir.x| == |rays.dir.z|
  {
    rays.Len()
  }

  /** The area as written is 2 for every batch, so a reflected batch of three
      rays would get buffers of two entries. */
  lemma PrecomputedAreaIsTwo(rays: Rays)
    ensures PrecomputedAreaAsWritten(rays) == 2
    ensures var three := Rays(Fill(Point(0.0, 0.0, 0.0), 3), Fill(Point(1.0, 0.0, 0.0), 3));
      PrecomputedAreaAsWritten(three) != PrecomputedArea(three)
  {
  }

  /** The buffers `render` fills are the reference shading. */
  lemma ShadeIs<G(!new)>(scene: Scene<G>, intersect: (G, Rays) -> Hits, normalize: V3 -> V3, rays: Rays, sh: Shading)
    requires rays.Valid() && WellSized(intersect) && SizePreserving(normalize)
    requires var hits := ObjectHits(scene, intersect, rays);
      && sh.distance == NearestDistances(hits, rays.Len())
      && sh.index == NearestIndices(hits, rays.Len(), MaterialIndices(scene))
      && sh.normal == NearestNormals(hits, rays.Len())
      && sh.lighting == LightingFactors(LightDirection(scene, normalize), scene.ambient, sh.normal)
      && sh.matte == MatteColors(scene.materials, sh.index)
      && sh.reflectivity == Reflectivities(scene.materials, sh.index)
    ensures sh == Shade(scene, intersect, normalize, rays)
  {
  }

  /** The material loop of render.py: colour and reflectivity of material i
      are placed where the index is i. */
  method AssignMaterials(materials: seq<(string, UniformMaterial)>, index: array<int>)
    returns (matte: V3Array, reflectivity: array<real>)
    ensures matte.Valid() && matte.Value() == MatteColors(materials, index[..])
    ensures reflectivity[..] == Reflectivities(materials, index[..])
  {
    var n := index.Length;
    matte := new V3Array(Fill(Point(0.0, 0.0, 0.0), n));
    reflectivity := new real[n](_ => 0.0);
    NoMaterials(materials, index[..]);
    for i := 0 to |materials|
      invariant matte.Valid() && matte.Len() == n
      invariant matte.Value() == MatteUpTo(materials, index[..], i)
      invariant reflectivity[..] == ReflectivityUpTo(materials, index[..], i)
    {
      var mask := IndexMask(index[..], i);
      MaterialStep(materials, index[..], i);
      var placedColor := matte.Place(mask, materials[i].1.color);
      var placedReflectivity := PlaceInto(reflectivity, mask, [materials[i].1.reflectivity]);
    }
  }

  /** `render(camera, scene, bounce)` for a camera that hands over `rays`.
      Returns `ok == false` where a material lookup raises KeyError. */
  method Render<G(!new)>(scene: Scene<G>, intersect: (G, Rays) -> Hits, normalize: V3 -> V3, rays: Rays, bounce: int := 4)
    returns (ok: bool, raster: V3)
    requires rays.Valid() && WellSized(intersect) && SizePreserving(normalize)
    ensures ok == MaterialsKnown(scene)
    ensures ok ==> RenderSpec(scene, intersect, normalize, rays, bounce) == Some(raster)
    decreases if bounce > 0 then bounce else 0, 1
  {
    var area := PrecomputedArea(rays);
    raster := Fill(Point(0.0, 0.0, 0.0), area);
    var distance, index, normal;
    ok, distance, index, normal := FindNearest(scene, intersect, rays);
    if !ok {
      return;
    }
    var lighting := LightingFactors(LightDirection(scene, normalize), scene.ambient, normal.Value());
    var matte, reflectivity := AssignMaterials(scene.materials, index);
    var sh := Shading(distance[..], index[..], normal.Value(), lighting, matte.Value(), reflectivity[..]);
    ShadeIs(scene, intersect, normalize, rays, sh);
    var reflective := Reflection(scene, intersect, normalize, rays, bounce, sh);
    raster := Compose(sh, reflective);
  }

  /** The reflection step of `render`: with bounces left and some reflective
      ray, render the reflected batch with one bounce less and place its
      colours at the reflective rays. */
  method Reflection<G(!new)>(scene: Scene<G>, intersect: (G, Rays) -> Hits, normalize: V3 -> V3, rays: Rays, bounce: int, sh: Shading)
    returns (reflective: V3)
    requires rays.Valid() && WellSized(intersect) && SizePreserving(normalize) && MaterialsKnown(scene)
    requires sh == Shade(scene, intersect, normalize, rays)
    ensures reflective == ReflectiveComponent(scene, intersect, normalize, rays, bounce)
    decreases if bounce > 0 then bounce else 0, 0
  {
    var reflectiveMask := ReflectiveMask(sh.reflectivity);
    var buffer := new V3Array(Fill(Point(0.0, 0.0, 0.0), rays.Len()));
    if bounce > 0 && Any(reflectiveMask) {
      var sub := ReflectedRays(rays, sh.distance, sh.normal, reflectiveMask, normalize);
      var subOk, bounced := Render(scene, intersect, normalize, sub, bounce - 1);
      var placed := buffer.Place(reflectiveMask, bounced);
    }
    reflective := buffer.Value();
  }
}
