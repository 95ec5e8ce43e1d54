/** What both renderers of the ray tracer share (raytrace/render.py and
    raytrace/__init__.py): the ray batch, an object's hits, the scene, the
    nearest-hit selection over the objects, the lighting factor and the
    material assignment. The object geometry is abstract: a scene holds
    values of some type G and an `intersect` function gives their hits. */
module Scene {
  import opened Masked
  import opened Vector
  import opened Distance
  import opened Material

  datatype Option<T> = None | Some(value: T)

  /** A ray batch `(positions, directions)`. */
  datatype Rays = Rays(origin: V3, dir: V3)
  {
    predicate Valid() { SameLen(origin, dir) }

    function Len(): nat { origin.Len() }
  }

  /** What an object's `intersections(rays)` returns: one distance and one
      normal per ray. */
  datatype Hits = Hits(dist: seq<Dist>, norm: V3)
  {
    predicate SizedFor(n: nat) { |dist| == n && norm.Valid() && norm.Len() == n }
  }

  /** A scene entry `{'geometry': ..., 'material': name}`. */
  datatype SceneObject<G> = SceneObject(geometry: G, material: string)

  /** `scene`: the objects, the `materials` dictionary in insertion order, and
      `lighting`'s `directional` vector and `ambient` level. */
  datatype Scene<G> = Scene(
    objects: seq<SceneObject<G>>,
    materials: seq<(string, UniformMaterial)>,
    directional: Vec,
    ambient: real)

  /** `intersections` reports one distance and one normal per ray. */
  ghost predicate WellSized<G(!new)>(intersect: (G, Rays) -> Hits)
  {
    forall g, rays: Rays {:trigger intersect(g, rays)} :: rays.Valid() ==> intersect(g, rays).SizedFor(rays.Len())
  }

  /** The stand-in for `unit()` keeps the batch size. */
  ghost predicate SizePreserving(normalize: V3 -> V3)
  {
    forall v: V3 {:trigger normalize(v)} :: v.Valid() ==> normalize(v).Valid() && normalize(v).Len() == v.Len()
  }

  // ---------------------------------------------------------------------
  // Material indices

  /** `material_indeces[name]` for `{m: i for i, m in enumerate(material_list)}`:
      the position of the name (the last one, as a dictionary comprehension
      keeps), or -1 where Python raises KeyError. */
  function IndexOf(materials: seq<(string, UniformMaterial)>, name: string): (r: int)
    ensures -1 <= r < |materials|
    ensures r >= 0 ==> materials[r].0 == name && forall k :: r < k < |materials| ==> materials[k].0 != name
    ensures r == -1 <==> forall k :: 0 <= k < |materials| ==> materials[k].0 != name
  {
    if |materials| == 0 then -1
    else if materials[|materials| - 1].0 == name then |materials| - 1
    else IndexOf(materials[..|materials| - 1], name)
  }

  /** Every object names a material of the scene, so no lookup raises. */
  predicate MaterialsKnown<G>(scene: Scene<G>)
  {
    forall k :: 0 <= k < |scene.objects| ==> IndexOf(scene.materials, scene.objects[k].material) >= 0
  }

  /** The material index of every object. */
  function MaterialIndices<G>(scene: Scene<G>): (mi: seq<int>)
    ensures |mi| == |scene.objects|
    ensures forall k :: 0 <= k < |mi| ==> -1 <= mi[k] < |scene.materials|
  {
    seq(|scene.objects|, k requires 0 <= k < |scene.objects| => IndexOf(scene.materials, scene.objects[k].material))
  }

  // ---------------------------------------------------------------------
  // Nearest hit of one ray over the objects

  /** The smallest distance, `inf` for no objects. */
  function Nearest(ds: seq<Dist>): Dist
  {
    if |ds| == 0 then Inf
    else
      var m := Nearest(ds[..|ds| - 1]);
      if Less(ds[|ds| - 1], m) then ds[|ds| - 1] else m
  }

  /** The object the strict `<` update settles on: an object replaces the
      current one only if strictly nearer; -1 if none is nearer than `inf`. */
  function Winner(ds: seq<Dist>): (w: int)
    ensures -1 <= w < |ds|
  {
    if |ds| == 0 then -1
    else if Less(ds[|ds| - 1], Nearest(ds[..|ds| - 1])) then |ds| - 1
    else Winner(ds[..|ds| - 1])
  }

  /** The nearest distance is the minimum, `inf` exactly when every object
      misses; the winner is the first object at that minimum, so on a tie
      the earlier object is kept. */
  lemma {:induction false} WinnerIsFirstNearest(ds: seq<Dist>)
    ensures forall k :: 0 <= k < |ds| ==> !Less(ds[k], Nearest(ds))
    ensures Nearest(ds) == Inf <==> forall k :: 0 <= k < |ds| ==> ds[k] == Inf
    ensures Winner(ds) == -1 <==> Nearest(ds) == Inf
    ensures Winner(ds) >= 0 ==> ds[Winner(ds)] == Nearest(ds)
    ensures Winner(ds) >= 0 ==> forall k :: 0 <= k < Winner(ds) ==> Less(Nearest(ds), ds[k])
  {
    if |ds| > 0 {
      var n := |ds| - 1;
      var p := ds[..n];
      WinnerIsFirstNearest(p);
      assert forall k :: 0 <= k < n ==> p[k] == ds[k];
      forall a: Dist, b: Dist, c: Dist {
        LessIsStrictTotalOrder(a, b, c);
      }
    }
  }

  // ---------------------------------------------------------------------
  // The object loop's buffers after a list of object hits

  predicate AllSized(hits: seq<Hits>, n: nat)
  {
    forall k :: 0 <= k < |hits| ==> hits[k].SizedFor(n)
  }

  /** Every object's hits for the batch, in scene order. */
  function ObjectHits<G(!new)>(scene: Scene<G>, intersect: (G, Rays) -> Hits, rays: Rays): (hits: seq<Hits>)
    requires rays.Valid() && WellSized(intersect)
    ensures |hits| == |scene.objects| && AllSized(hits, rays.Len())
  {
    var hits := seq(|scene.objects|, k requires 0 <= k < |scene.objects| => intersect(scene.objects[k].geometry, rays));
    assert forall k :: 0 <= k < |hits| ==> hits[k] == intersect(scene.objects[k].geometry, rays);
    hits
  }

  /** Ray j's distances over the objects. */
  function Column(hits: seq<Hits>, n: nat, j: nat): (c: seq<Dist>)
    requires AllSized(hits, n) && j < n
    ensures |c| == |hits|
  {
    seq(|hits|, k requires 0 <= k < |hits| => hits[k].dist[j])
  }

  /** `distance` after the loop. */
  function NearestDistances(hits: seq<Hits>, n: nat): (d: seq<Dist>)
    requires AllSized(hits, n)
    ensures |d| == n
  {
    seq(n, j requires 0 <= j < n => Nearest(Column(hits, n, j)))
  }

  function Winners(hits: seq<Hits>, n: nat): (w: seq<int>)
    requires AllSized(hits, n)
    ensures |w| == n && forall j :: 0 <= j < n ==> -1 <= w[j] < |hits|
  {
    seq(n, j requires 0 <= j < n => Winner(Column(hits, n, j)))
  }

  /** `nearest_material_index` after the loop, given every object's index. */
  function NearestIndices(hits: seq<Hits>, n: nat, mi: seq<int>): (r: seq<int>)
    requires AllSized(hits, n) && |hits| <= |mi|
    ensures |r| == n
  {
    var w := Winners(hits, n);
    seq(n, j requires 0 <= j < n => if w[j] < 0 then -1 else mi[w[j]])
  }

  /** `normal` after the loop. */
  function NearestNormals(hits: seq<Hits>, n: nat): (r: V3)
    requires AllSized(hits, n)
    ensures r.Valid() && r.Len() == n
  {
    var w := Winners(hits, n);
    V3(seq(n, j requires 0 <= j < n => if w[j] < 0 then 0.0 else hits[w[j]].norm.x[j]),
       seq(n, j requires 0 <= j < n => if w[j] < 0 then 0.0 else hits[w[j]].norm.y[j]),
       seq(n, j requires 0 <= j < n => if w[j] < 0 then 0.0 else hits[w[j]].norm.z[j]))
  }

  /** Before any object: `inf`, index -1 and zero normals everywhere. */
  lemma NoObjects(n: nat, mi: seq<int>)
    ensures NearestDistances([], n) == seq(n, _ => Inf)
    ensures NearestIndices([], n, mi) == seq(n, _ => -1)
    ensures NearestNormals([], n) == Fill(Point(0.0, 0.0, 0.0), n)
  {
  }

  /** Adding object k to ray j's candidates: it takes over exactly when it is
      strictly nearer than the nearest so far. */
  lemma ColumnStep(hits: seq<Hits>, n: nat, k: nat, j: nat)
    requires AllSized(hits, n) && k < |hits| && j < n
    ensures var before := Column(hits[..k], n, j);
      var after := Column(hits[..k + 1], n, j);
      && Nearest(after) == (if Less(hits[k].dist[j], Nearest(before)) then hits[k].dist[j] else Nearest(before))
      && Winner(after) == (if Less(hits[k].dist[j], Nearest(before)) then k else Winner(before))
  {
    assert Column(hits[..k + 1], n, j)[..k] == Column(hits[..k], n, j);
  }

  /** One pass of the object loop on `distance`: object k's distance is
      copied exactly where it is strictly smaller. */
  lemma DistanceStep(hits: seq<Hits>, n: nat, k: nat)
    requires AllSized(hits, n) && k < |hits|
    ensures var mask := LessMask(hits[k].dist, NearestDistances(hits[..k], n));
      NearestDistances(hits[..k + 1], n) == CopyTo(NearestDistances(hits[..k], n), hits[k].dist, mask)
  {
    forall j | 0 <= j < n {
      ColumnStep(hits, n, k, j);
    }
  }

  /** Where object k takes over, the winner becomes k; elsewhere it stays. */
  lemma WinnerStep(hits: seq<Hits>, n: nat, k: nat)
    requires AllSized(hits, n) && k < |hits|
    ensures var mask := LessMask(hits[k].dist, NearestDistances(hits[..k], n));
      forall j :: 0 <= j < n ==> Winners(hits[..k + 1], n)[j] == if mask[j] then k else Winners(hits[..k], n)[j]
  {
    forall j | 0 <= j < n {
      ColumnStep(hits, n, k, j);
    }
  }

  /** One pass on `nearest_material_index`: object k's index is placed
      exactly where it takes over. */
  lemma IndexStep(hits: seq<Hits>, n: nat, mi: seq<int>, k: nat)
    requires AllSized(hits, n) && k < |hits| && |hits| <= |mi|
    ensures var mask := LessMask(hits[k].dist, NearestDistances(hits[..k], n));
      NearestIndices(hits[..k + 1], n, mi) == Place(NearestIndices(hits[..k], n, mi), mask, [mi[k]])
  {
    var mask := LessMask(hits[k].dist, NearestDistances(hits[..k], n));
    PlaceOne(NearestIndices(hits[..k], n, mi), mask, mi[k]);
    WinnerStep(hits, n, k);
  }

  /** One pass on `normal`: object k's normals are copied exactly where it
      takes over. */
  lemma NormalStep(hits: seq<Hits>, n: nat, k: nat)
    requires AllSized(hits, n) && k < |hits|
    ensures var mask := LessMask(hits[k].dist, NearestDistances(hits[..k], n));
      NearestNormals(hits[..k + 1], n) == NearestNormals(hits[..k], n).CopyFrom(hits[k].norm, mask)
  {
    WinnerStep(hits, n, k);
  }

  /** One pass of the object loop: the rays on which object k is strictly
      nearer than the best so far take its distance, material index and
      normal. */
  method MergeObject(ghost hits: seq<Hits>, n: nat, ghost mi: seq<int>, k: nat, materialIndex: int, collisions: Hits,
                     distance: array<Dist>, index: array<int>, normal: V3Array)
    requires AllSized(hits, n) && k < |hits| <= |mi| && mi[k] == materialIndex && collisions == hits[k]
    requires normal.Valid() && normal.Len() == n
    requires distance[..] == NearestDistances(hits[..k], n)
    requires index[..] == NearestIndices(hits[..k], n, mi)
    requires normal.Value() == NearestNormals(hits[..k], n)
    modifies distance, index, normal.x, normal.y, normal.z
    ensures normal.Valid() && normal.Len() == n
    ensures distance[..] == NearestDistances(hits[..k + 1], n)
    ensures index[..] == NearestIndices(hits[..k + 1], n, mi)
    ensures normal.Value() == NearestNormals(hits[..k + 1], n)
  {
    var mask := LessMask(collisions.dist, distance[..]);
    var placed := PlaceInto(index, mask, [materialIndex]);
    CopyInto(distance, collisions.dist, mask);
    normal.CopyFrom(collisions.norm, mask);
    DistanceStep(hits, n, k);
    IndexStep(hits, n, mi, k);
    NormalStep(hits, n, k);
  }

  /** The nearest-hit loop of both renderers (render.py:41-47,
      __init__.py:29-35). It stops with `ok == false` where the material
      lookup raises KeyError. */
  method FindNearest<G(!new)>(scene: Scene<G>, intersect: (G, Rays) -> Hits, rays: Rays)
    returns (ok: bool, distance: array<Dist>, index: array<int>, normal: V3Array)
    requires rays.Valid() && WellSized(intersect)
    ensures ok == MaterialsKnown(scene)
    ensures distance.Length == rays.Len() && index.Length == rays.Len()
    ensures normal.Valid() && normal.Len() == rays.Len()
    ensures ok ==> var hits := ObjectHits(scene, intersect, rays);
      && distance[..] == NearestDistances(hits, rays.Len())
      && index[..] == NearestIndices(hits, rays.Len(), MaterialIndices(scene))
      && normal.Value() == NearestNormals(hits, rays.Len())
  {
    var n := rays.Len();
    ghost var hits := ObjectHits(scene, intersect, rays);
    ghost var mi := MaterialIndices(scene);
    index := new int[n](_ => -1);
    distance := new Dist[n](_ => Inf);
    normal := new V3Array(Fill(Point(0.0, 0.0, 0.0), n));
    NoObjects(n, mi);
    assert hits[..0] == [];
    for k := 0 to |scene.objects|
      invariant normal.Valid() && normal.Len() == n
      invariant distance[..] == NearestDistances(hits[..k], n)
      invariant index[..] == NearestIndices(hits[..k], n, mi)
      invariant normal.Value() == NearestNormals(hits[..k], n)
      invariant forall kk :: 0 <= kk < k ==> mi[kk] >= 0
    {
      var materialIndex := IndexOf(scene.materials, scene.objects[k].material);
      assert mi[k] == materialIndex;
      if materialIndex < 0 {
        ok := false;
        return;
      }
      var collisions := intersect(scene.objects[k].geometry, rays);
      assert collisions == hits[k];
      MergeObject(hits, n, mi, k, materialIndex, collisions, distance, index, normal);
    }
    ok := true;
    assert forall kk :: 0 <= kk < |scene.objects| ==> mi[kk] == IndexOf(scene.materials, scene.objects[kk].material);
    assert hits[..|scene.objects|] == hits;
  }

  // ---------------------------------------------------------------------
  // Lighting factor

  /** `np.clip(L.dot(normal) * -1, 0, 1) * (1 - ambient) + ambient`, with the
      single light direction L set against every normal. */
  function LightingFactors(light: Vec, ambient: real, normal: V3): (r: seq<real>)
    requires normal.Valid()
    ensures |r| == normal.Len()
  {
    var facing := Fill(light, normal.Len()).Dot(normal);
    seq(normal.Len(), j requires 0 <= j < normal.Len() => Clip(facing[j] * -1.0, 0.0, 1.0) * (1.0 - ambient) + ambient)
  }

  /** The facing term of one ray, clipped to [0, 1]. */
  function Facing(light: Vec, normal: V3, j: nat): (f: real)
    requires normal.Valid() && j < normal.Len()
    ensures 0.0 <= f <= 1.0
  {
    Clip(Fill(light, normal.Len()).Dot(normal)[j] * -1.0, 0.0, 1.0)
  }

  /** For ambient in [0, 1] each ray's factor lies in [ambient, 1]; it is the
      ambient level where the surface faces away from the light and 1 where
      the normal is exactly opposite a unit light direction. */
  lemma LightingBounds(light: Vec, ambient: real, normal: V3, j: nat)
    requires normal.Valid() && j < normal.Len()
    ensures LightingFactors(light, ambient, normal)[j] == Facing(light, normal, j) * (1.0 - ambient) + ambient
    ensures 0.0 <= ambient <= 1.0 ==> ambient <= LightingFactors(light, ambient, normal)[j] <= 1.0
    ensures Fill(light, normal.Len()).Dot(normal)[j] >= 0.0 ==> LightingFactors(light, ambient, normal)[j] == ambient
    ensures light.NormSq()[0] == 1.0 && normal.x[j] == -light.x[0] && normal.y[j] == -light.y[0] && normal.z[j] == -light.z[0]
      ==> LightingFactors(light, ambient, normal)[j] == 1.0
  {
    var f := Facing(light, normal, j);
    if 0.0 <= ambient <= 1.0 {
      assert f * (1.0 - ambient) <= 1.0 - ambient by { ScaleBelowOne(f, 1.0 - ambient); }
      assert f * (1.0 - ambient) >= 0.0 by { ScaleBelowOne(f, 1.0 - ambient); }
    }
  }

  lemma ScaleBelowOne(f: real, c: real)
    requires 0.0 <= f <= 1.0 && c >= 0.0
    ensures 0.0 <= f * c <= c
  {
    assert c - f * c == (1.0 - f) * c;
  }

  // ---------------------------------------------------------------------
  // Material assignment (the material loop)

  /** `nearest_material_index == i`. */
  function IndexMask(index: seq<int>, i: int): (mask: seq<bool>)
    ensures |mask| == |index|
  {
    seq(|index|, j requires 0 <= j < |index| => index[j] == i)
  }

  /** The matte colours after the first `upTo` materials were placed: the
      colour of the ray's material if it is among them, black otherwise. */
  function MatteUpTo(materials: seq<(string, UniformMaterial)>, index: seq<int>, upTo: nat): (r: V3)
    requires upTo <= |materials|
    ensures r.Valid() && r.Len() == |index|
  {
    V3(seq(|index|, j requires 0 <= j < |index| => if 0 <= index[j] < upTo then materials[index[j]].1.color.x[0] else 0.0),
       seq(|index|, j requires 0 <= j < |index| => if 0 <= index[j] < upTo then materials[index[j]].1.color.y[0] else 0.0),
       seq(|index|, j requires 0 <= j < |index| => if 0 <= index[j] < upTo then materials[index[j]].1.color.z[0] else 0.0))
  }

  /** The reflectivities after the first `upTo` materials were placed. */
  function ReflectivityUpTo(materials: seq<(string, UniformMaterial)>, index: seq<int>, upTo: nat): (r: seq<real>)
    requires upTo <= |materials|
    ensures |r| == |index|
  {
    seq(|index|, j requires 0 <= j < |index| => if 0 <= index[j] < upTo then materials[index[j]].1.reflectivity else 0.0)
  }

  /** `matte_component` after the material loop. */
  function MatteColors(materials: seq<(string, UniformMaterial)>, index: seq<int>): (r: V3)
    ensures r.Valid() && r.Len() == |index|
  {
    MatteUpTo(materials, index, |materials|)
  }

  /** `reflectivity` after the material loop. */
  function Reflectivities(materials: seq<(string, UniformMaterial)>, index: seq<int>): (r: seq<real>)
    ensures |r| == |index|
  {
    ReflectivityUpTo(materials, index, |materials|)
  }

  lemma NoMaterials(materials: seq<(string, UniformMaterial)>, index: seq<int>)
    ensures MatteUpTo(materials, index, 0) == Fill(Point(0.0, 0.0, 0.0), |index|)
    ensures ReflectivityUpTo(materials, index, 0) == seq(|index|, _ => 0.0)
  {
  }

  /** One pass of the material loop: material i is written exactly where
      the ray's index is i. */
  lemma MaterialStep(materials: seq<(string, UniformMaterial)>, index: seq<int>, i: nat)
    requires i < |materials|
    ensures PlaceDefined(|index|, IndexMask(index, i), materials[i].1.color.x)
    ensures MatteUpTo(materials, index, i + 1)
      == MatteUpTo(materials, index, i).Place(IndexMask(index, i), materials[i].1.color)
    ensures ReflectivityUpTo(materials, index, i + 1)
      == Place(ReflectivityUpTo(materials, index, i), IndexMask(index, i), [materials[i].1.reflectivity])
  {
    V3PlaceOne(MatteUpTo(materials, index, i), IndexMask(index, i), materials[i].1.color);
    PlaceOne(ReflectivityUpTo(materials, index, i), IndexMask(index, i), materials[i].1.reflectivity);
  }

  /** A ray with index -1, which no object hit, gets black and reflectivity 0. */
  lemma UnhitIsBlack(materials: seq<(string, UniformMaterial)>, index: seq<int>, j: nat)
    requires j < |index| && index[j] == -1
    ensures MatteColors(materials, index).x[j] == 0.0
    ensures MatteColors(materials, index).y[j] == 0.0
    ensures MatteColors(materials, index).z[j] == 0.0
    ensures Reflectivities(materials, index)[j] == 0.0
  {
  }

  /** The nearest hit as the material loop sees it: index -1 exactly where
      every object misses, and otherwise the material of the winning object. */
  lemma NearestIndexIsWinnersMaterial<G>(scene: Scene<G>, hits: seq<Hits>, n: nat, j: nat)
    requires AllSized(hits, n) && |hits| == |scene.objects| && j < n && MaterialsKnown(scene)
    ensures var index := NearestIndices(hits, n, MaterialIndices(scene));
      && (index[j] == -1 <==> NearestDistances(hits, n)[j] == Inf)
      && (index[j] != -1 ==> 0 <= index[j] < |scene.materials|)
      && (index[j] != -1 ==> var w := Winners(hits, n)[j];
            && 0 <= w < |scene.objects|
            && hits[w].dist[j] == NearestDistances(hits, n)[j]
            && index[j] == MaterialIndices(scene)[w])
  {
    WinnerIsFirstNearest(Column(hits, n, j));
  }

  // ---------------------------------------------------------------------
  // Everything a renderer knows about a batch before it composes colours

  /** The buffers after the object loop, the lighting factor and the
      material loop. */
  datatype Shading = Shading(
    distance: seq<Dist>,
    index: seq<int>,
    normal: V3,
    lighting: seq<real>,
    matte: V3,
    reflectivity: seq<real>)
  {
    predicate SizedFor(n: nat)
    {
      && |distance| == n && |index| == n && normal.Valid() && normal.Len() == n
      && |lighting| == n && matte.Valid() && matte.Len() == n && |reflectivity| == n
    }
  }

  /** The unit light direction `scene['lighting']['directional'].unit()`. */
  function LightDirection<G>(scene: Scene<G>, normalize: V3 -> V3): (light: Vec)
    requires SizePreserving(normalize)
  {
    normalize(scene.directional)
  }

  function Shade<G(!new)>(scene: Scene<G>, intersect: (G, Rays) -> Hits, normalize: V3 -> V3, rays: Rays): (sh: Shading)
    requires rays.Valid() && WellSized(intersect) && SizePreserving(normalize)
    ensures sh.SizedFor(rays.Len())
  {
    var n := rays.Len();
    var hits := ObjectHits(scene, intersect, rays);
    var index := NearestIndices(hits, n, MaterialIndices(scene));
    var normal := NearestNormals(hits, n);
    Shading(NearestDistances(hits, n), index, normal,
            LightingFactors(LightDirection(scene, normalize), scene.ambient, normal),
            MatteColors(scene.materials, index), Reflectivities(scene.materials, index))
  }

  /** A ray's nearest distance is `inf` exactly when every object misses it. */
  lemma ShadeInfIffAllMiss<G(!new)>(scene: Scene<G>, intersect: (G, Rays) -> Hits, normalize: V3 -> V3, rays: Rays, j: nat)
    requires rays.Valid() && WellSized(intersect) && SizePreserving(normalize)
    requires j < rays.Len()
    ensures Shade(scene, intersect, normalize, rays).distance[j] == Inf
      <==> forall k :: 0 <= k < |scene.objects| ==> intersect(scene.objects[k].geometry, rays).dist[j] == Inf
  {
    var hits := ObjectHits(scene, intersect, rays);
    var c := Column(hits, rays.Len(), j);
    WinnerIsFirstNearest(c);
    assert forall k :: 0 <= k < |hits| ==> c[k] == hits[k].dist[j] == intersect(scene.objects[k].geometry, rays).dist[j];
  }

  /** A ray with distance `inf` keeps index -1, and so gets black and
      reflectivity 0; a ray with positive reflectivity hit an object. */
  lemma ShadeMiss<G(!new)>(scene: Scene<G>, intersect: (G, Rays) -> Hits, normalize: V3 -> V3, rays: Rays, j: nat)
    requires rays.Valid() && WellSized(intersect) && SizePreserving(normalize) && MaterialsKnown(scene)
    requires j < rays.Len()
    ensures var sh := Shade(scene, intersect, normalize, rays);
      && (sh.distance[j] == Inf <==> sh.index[j] == -1)
      && (sh.distance[j] == Inf ==>
            sh.matte.x[j] == 0.0 && sh.matte.y[j] == 0.0 && sh.matte.z[j] == 0.0 && sh.reflectivity[j] == 0.0)
      && (sh.reflectivity[j] > 0.0 ==> sh.distance[j].Fin?)
  {
    var sh := Shade(scene, intersect, normalize, rays);
    ShadeParts(scene, intersect, normalize, rays);
    NearestIndexIsWinnersMaterial(scene, ObjectHits(scene, intersect, rays), rays.Len(), j);
    if sh.distance[j] == Inf {
      UnhitIsBlack(scene.materials, sh.index, j);
    }
  }

  /** What each field of the shading is made of. */
  lemma ShadeParts<G(!new)>(scene: Scene<G>, intersect: (G, Rays) -> Hits, normalize: V3 -> V3, rays: Rays)
    requires rays.Valid() && WellSized(intersect) && SizePreserving(normalize)
    ensures var sh := Shade(scene, intersect, normalize, rays);
      && sh.matte == MatteColors(scene.materials, sh.index)
      && sh.reflectivity == Reflectivities(scene.materials, sh.index)
      && sh.lighting == LightingFactors(LightDirection(scene, normalize), scene.ambient, sh.normal)
  {
  }

  /** A ray with a material index gets that material's colour and
      reflectivity. */
  lemma MaterialOfIndex(materials: seq<(string, UniformMaterial)>, index: seq<int>, j: nat)
    requires j < |index| && 0 <= index[j] < |materials|
    ensures MatteColors(materials, index).x[j] == materials[index[j]].1.color.x[0]
    ensures MatteColors(materials, index).y[j] == materials[index[j]].1.color.y[0]
    ensures MatteColors(materials, index).z[j] == materials[index[j]].1.color.z[0]
    ensures Reflectivities(materials, index)[j] == materials[index[j]].1.reflectivity
  {
  }

  /** If no material reflects, no ray does. */
  lemma ReflectivitiesZero(materials: seq<(string, UniformMaterial)>, index: seq<int>)
    requires forall i :: 0 <= i < |materials| ==> materials[i].1.reflectivity == 0.0
    ensures forall j :: 0 <= j < |index| ==> Reflectivities(materials, index)[j] == 0.0
  {
  }

  /** A ray that hit an object gets the colour and reflectivity of that
      object's material. */
  lemma ShadeMaterial<G(!new)>(scene: Scene<G>, intersect: (G, Rays) -> Hits, normalize: V3 -> V3, rays: Rays, j: nat)
    requires rays.Valid() && WellSized(intersect) && SizePreserving(normalize) && MaterialsKnown(scene)
    requires j < rays.Len()
    ensures var sh := Shade(scene, intersect, normalize, rays);
      sh.distance[j] != Inf ==>
        && 0 <= sh.index[j] < |scene.materials|
        && sh.matte.x[j] == scene.materials[sh.index[j]].1.color.x[0]
        && sh.matte.y[j] == scene.materials[sh.index[j]].1.color.y[0]
        && sh.matte.z[j] == scene.materials[sh.index[j]].1.color.z[0]
        && sh.reflectivity[j] == scene.materials[sh.index[j]].1.reflectivity
  {
    var sh := Shade(scene, intersect, normalize, rays);
    ShadeParts(scene, intersect, normalize, rays);
    NearestIndexIsWinnersMaterial(scene, ObjectHits(scene, intersect, rays), rays.Len(), j);
    if sh.distance[j] != Inf {
      MaterialOfIndex(scene.materials, sh.index, j);
    }
  }
}
