/** The reflection-free renderer of raytrace/__init__.py: the same nearest-hit
    loop, lighting factor and material placement as render.py, and a raster
    that is the matte colour under the lighting. */
module Raytrace {
  import opened Masked
  import opened Vector
  import opened Distance
  import opened Material
  import opened Scene
  import Renderer

  /** `raster += matte_component * lighting` on a black raster. */
  function FlatRaster(sh: Shading): (raster: V3)
    requires sh.SizedFor(|sh.index|)
    ensures SameLen(raster, sh.matte)
  {
    Fill(Point(0.0, 0.0, 0.0), |sh.index|).Add(sh.matte.ScaleEach(sh.lighting))
  }

  /** Each pixel is its matte colour times its lighting factor: there is no
      reflection term. */
  lemma FlatRasterAt(sh: Shading, j: nat)
    requires sh.SizedFor(|sh.index|) && j < |sh.index|
    ensures var raster := FlatRaster(sh);
      && raster.x[j] == sh.matte.x[j] * sh.lighting[j]
      && raster.y[j] == sh.matte.y[j] * sh.lighting[j]
      && raster.z[j] == sh.matte.z[j] * sh.lighting[j]
  {
  }

  /** Pixel `j` of `raster` is the colour `c` scaled by `l`. */
  predicate ShowsColor(raster: V3, j: nat, c: Vec, l: real)
    requires raster.Valid() && j < raster.Len()
  {
    raster.x[j] == c.x[0] * l && raster.y[j] == c.y[0] * l && raster.z[j] == c.z[0] * l
  }

  /** A pixel whose matte colour is `c` shows `c` under its lighting. */
  lemma FlatPixelColor(sh: Shading, j: nat, c: Vec)
    requires sh.SizedFor(|sh.index|) && j < |sh.index|
    requires sh.matte.x[j] == c.x[0] && sh.matte.y[j] == c.y[0] && sh.matte.z[j] == c.z[0]
    ensures ShowsColor(FlatRaster(sh), j, c, sh.lighting[j])
  {
    FlatRasterAt(sh, j);
  }

  /** With reflectivity 0 everywhere and nothing reflected, the composition
      of render.py is this raster. */
  lemma ComposeWithoutReflection(sh: Shading)
    requires sh.SizedFor(|sh.index|)
    requires forall j :: 0 <= j < |sh.reflectivity| ==> sh.reflectivity[j] == 0.0
    ensures Renderer.Compose(sh, Fill(Point(0.0, 0.0, 0.0), |sh.index|)) == FlatRaster(sh)
  {
    var a, b := Renderer.Compose(sh, Fill(Point(0.0, 0.0, 0.0), |sh.index|)), FlatRaster(sh);
    forall j | 0 <= j < |sh.index|
      ensures a.x[j] == b.x[j] && a.y[j] == b.y[j] && a.z[j] == b.z[j]
    {
      Renderer.ComposeAt(sh, Fill(Point(0.0, 0.0, 0.0), |sh.index|), j);
      Renderer.BlendExtremes(sh.matte.x[j], sh.lighting[j], 0.0);
      Renderer.BlendExtremes(sh.matte.y[j], sh.lighting[j], 0.0);
      Renderer.BlendExtremes(sh.matte.z[j], sh.lighting[j], 0.0);
      FlatRasterAt(sh, j);
    }
  }

  /** The raster `render(camera, scene)` returns for the camera's rays, or
      None where a material lookup raises KeyError. */
  function FlatRenderSpec<G(!new)>(scene: Scene<G>, intersect: (G, Rays) -> Hits, normalize: V3 -> V3, rays: Rays): (r: Option<V3>)
    requires rays.Valid() && WellSized(intersect) && SizePreserving(normalize)
    ensures r.Some? <==> MaterialsKnown(scene)
    ensures r.Some? ==> r.value.Valid() && r.value.Len() == rays.Len()
  {
    if !MaterialsKnown(scene) then None else Some(FlatRaster(Shade(scene, intersect, normalize, rays)))
  }

  /** A pixel whose ray every object misses is black. */
  lemma FlatMissIsBlack<G(!new)>(scene: Scene<G>, intersect: (G, Rays) -> Hits, normalize: V3 -> V3, rays: Rays, j: nat)
    requires rays.Valid() && WellSized(intersect) && SizePreserving(normalize) && MaterialsKnown(scene)
    requires j < rays.Len() && Shade(scene, intersect, normalize, rays).distance[j] == Inf
    ensures var raster := FlatRenderSpec(scene, intersect, normalize, rays).value;
      raster.x[j] == 0.0 && raster.y[j] == 0.0 && raster.z[j] == 0.0
  {
    var sh := Shade(scene, intersect, normalize, rays);
    assert FlatRenderSpec(scene, intersect, normalize, rays).value == FlatRaster(sh);
    ShadeMiss(scene, intersect, normalize, rays, j);
    FlatRasterAt(sh, j);
  }

  /** A pixel whose ray hits shows the colour of the winning object's
      material under the lighting. */
  lemma FlatHitShowsMaterial<G(!new)>(scene: Scene<G>, intersect: (G, Rays) -> Hits, normalize: V3 -> V3, rays: Rays, j: nat)
    requires rays.Valid() && WellSized(intersect) && SizePreserving(normalize) && MaterialsKnown(scene)
    requires j < rays.Len() && Shade(scene, intersect, normalize, rays).distance[j] != Inf
    ensures var sh := Shade(scene, intersect, normalize, rays);
      var raster := FlatRenderSpec(scene, intersect, normalize, rays).value;
      && 0 <= sh.index[j] < |scene.materials|
      && ShowsColor(raster, j, scene.materials[sh.index[j]].1.color, sh.lighting[j])
  {
    var sh := Shade(scene, intersect, normalize, rays);
    assert FlatRenderSpec(scene, intersect, normalize, rays).value == FlatRaster(sh);
    ShadeMaterial(scene, intersect, normalize, rays, j);
    FlatPixelColor(sh, j, scene.materials[sh.index[j]].1.color);
  }

  /** A pixel whose normal is exactly opposite the unit light direction is
      lit fully: it shows the material's colour. */
  lemma OppositeNormalShowsColor<G(!new)>(scene: Scene<G>, intersect: (G, Rays) -> Hits, normalize: V3 -> V3, rays: Rays, j: nat)
    requires rays.Valid() && WellSized(intersect) && SizePreserving(normalize) && MaterialsKnown(scene)
    requires j < rays.Len()
    requires var light, sh := LightDirection(scene, normalize), Shade(scene, intersect, normalize, rays);
      && light.NormSq()[0] == 1.0 && sh.distance[j] != Inf
      && sh.normal.x[j] == -light.x[0] && sh.normal.y[j] == -light.y[0] && sh.normal.z[j] == -light.z[0]
    ensures var sh := Shade(scene, intersect, normalize, rays);
      var raster := FlatRenderSpec(scene, intersect, normalize, rays).value;
      && 0 <= sh.index[j] < |scene.materials|
      && ShowsColor(raster, j, scene.materials[sh.index[j]].1.color, 1.0)
  {
    var sh := Shade(scene, intersect, normalize, rays);
    FlatHitShowsMaterial(scene, intersect, normalize, rays, j);
    LightingBounds(LightDirection(scene, normalize), scene.ambient, sh.normal, j);
  }

  /** When no material reflects, the reflective renderer draws exactly what
      this one draws, whatever the bounce count. */
  lemma NoReflectionSameRaster<G(!new)>(scene: Scene<G>, intersect: (G, Rays) -> Hits, normalize: V3 -> V3, rays: Rays, bounce: int)
    requires rays.Valid() && WellSized(intersect) && SizePreserving(normalize)
    requires forall i :: 0 <= i < |scene.materials| ==> scene.materials[i].1.reflectivity == 0.0
    ensures Renderer.RenderSpec(scene, intersect, normalize, rays, bounce) == FlatRenderSpec(scene, intersect, normalize, rays)
  {
    if MaterialsKnown(scene) {
      var sh := Shade(scene, intersect, normalize, rays);
      ShadeParts(scene, intersect, normalize, rays);
      ReflectivitiesZero(scene.materials, sh.index);
      NoneReflective(sh.reflectivity);
      ComposeWithoutReflection(sh);
    }
  }

  lemma NoneReflective(reflectivity: seq<real>)
    requires forall j :: 0 <= j < |reflectivity| ==> reflectivity[j] == 0.0
    ensures !Any(Renderer.ReflectiveMask(reflectivity))
  {
  }

  /** The material loop of __init__.py: only colours are placed. */
  method AssignColors(materials: seq<(string, UniformMaterial)>, index: array<int>) returns (matte: V3Array)
    ensures matte.Valid() && matte.Value() == MatteColors(materials, index[..])
  {
    var n := index.Length;
    matte := new V3Array(Fill(Point(0.0, 0.0, 0.0), n));
    NoMaterials(materials, index[..]);
    for i := 0 to |materials|
      invariant matte.Valid() && matte.Len() == n
      invariant matte.Value() == MatteUpTo(materials, index[..], i)
    {
      MaterialStep(materials, index[..], i);
      var placed := matte.Place(IndexMask(index[..], i), materials[i].1.color);
    }
  }

  /** `render(camera, scene)` with a camera of `width * height` pixels whose
      rays are `rays`. Returns `ok == false` where a material lookup raises
      KeyError. */
  method Render<G(!new)>(scene: Scene<G>, intersect: (G, Rays) -> Hits, normalize: V3 -> V3,
                         width: nat, height: nat, rays: Rays)
    returns (ok: bool, raster: V3)
    requires rays.Valid() && rays.Len() == width * height
    requires WellSized(intersect) && SizePreserving(normalize)
    ensures raster.Valid() && raster.Len() == width * height
    ensures ok == MaterialsKnown(scene)
    ensures ok ==> FlatRenderSpec(scene, intersect, normalize, rays) == Some(raster)
  {
    var area := width * height;
    raster := Fill(Point(0.0, 0.0, 0.0), area);
    var distance, index, normal;
    ok, distance, index, normal := FindNearest(scene, intersect, rays);
    if !ok {
      return;
    }
    var lighting := LightingFactors(LightDirection(scene, normalize), scene.ambient, normal.Value());
    var matte := AssignColors(scene.materials, index);
    raster := raster.Add(matte.Value().ScaleEach(lighting));
  }
}
