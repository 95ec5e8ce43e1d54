# A verified model of a NumPy ray tracer

This project models the core of a small Python ray tracer. The tracer works
on whole batches of rays at once: a `V3` holds the x, y and z coordinates of
many vectors as three NumPy arrays. For every ray it finds the nearest object
in the scene and computes a lighting factor from one directional light and an
ambient level. It then gives each hit ray the colour (and, in the reflective
renderer, the reflectivity) of the material of the object it hit. The
reflective renderer `render.py` then traces the reflected rays recursively, up
to a bounce limit, and blends their colours in. The flat renderer `__init__.py`
stops after the matte colours.

The modules follow the source files:

| module | file | models |
|---|---|---|
| `Masked` | (NumPy) | `np.place`, `np.extract`, `np.copyto(where=)`, `np.repeat`, `np.clip`, `any`, as functions on sequences and as in-place methods on arrays |
| `Vector` | `raytrace/vector.py` | the `V3` batch as a value (`Vector.V3`) and as three arrays updated in place (`Vector.V3Array`) |
| `Distance` | (NumPy floats) | a distance is a real number or `inf`; NumPy's `<` on them |
| `Geometry` | `raytrace/geometry.py` | the miss test of `Sphere.intersections` and the geometry behind it |
| `Transform` | `raytrace/transform.py` | `TranslationHelper` |
| `Material` | `raytrace/material.py` | uniform and checkered materials |
| `Lighting` | `raytrace/lighting.py` | ambient and directional lights, with an abstract `collide` |
| `Scene` | shared by `render.py` and `__init__.py` | scene, rays, the nearest-hit loop, lighting factor, material loop |
| `Renderer` | `raytrace/render.py` | `CollisionResult` and the recursive `render` |
| `Raytrace` | `raytrace/__init__.py` | the flat `render` |

Numbers are `real`, so the model has no rounding and no overflow. The
geometry the renderers call is a parameter `intersect: (G, Rays) -> Hits`, and
`WellSized` requires it to return one distance and one normal per ray.
`V3.unit()` needs a square root, so it is a parameter `normalize` that
only has to keep the batch size (`SizePreserving`). Where Python raises
`KeyError` for an object whose material is not in the scene, the model
returns `None` or `ok == false`.

Each loop of the source is a method with loop invariants. Each method is
proved equal to a specification function:
- `FindNearest` against `NearestDistances`, `NearestIndices` and `NearestNormals`;
- `AssignMaterials` against `MatteColors` and `Reflectivities`;
- `Renderer.Render` against `RenderSpec`;
- `Raytrace.Render` against `FlatRenderSpec`.

The lemmas then state what those functions mean:
- the winner of a ray is the first object at the minimum distance;
- a ray that every object misses is black;
- a hit ray shows its winning material's colour under the lighting;
- with no reflective material, the two renderers draw the same raster.

`V3.repeat` is called by `render.py` and `lighting.py`, and tested in
`tests/testvector.py`, but `vector.py` does not define it. It is modelled with
the `np.repeat` semantics those tests expect: each vector repeated n times in
a row.

## Model

| member | source | states |
|---|---|---|
| Masked.Clip | raytrace/render.py:54 | `np.clip(t, lo, hi)` lies in [lo, hi] when lo ≤ hi, is t inside the range, lo below it and hi above it (and hi whenever hi < lo, as `min(max(t, lo), hi)` gives) |
| Masked.Count | raytrace/render.py:69 | the number of true entries is at most the mask's length |
| Masked.CountStep | raytrace/render.py:69 | extending a prefix by one entry raises the count by one exactly when that entry is true |
| Masked.CountZero | raytrace/render.py:69 | the count is 0 exactly when no entry is true |
| Masked.Any | raytrace/render.py:69 | `mask.any()` holds exactly when some entry is true |
| Masked.RankBelowCount | raytrace/vector.py:76-79 | a true position's rank among the true entries is below their count |
| Masked.Extract | raytrace/vector.py:69-74 | `np.extract` returns one entry per true position of the mask |
| Masked.ExtractAt | raytrace/vector.py:69-74 | the true entry at position i is entry Count(mask[..i]) of the extraction |
| Masked.ExtractFrom | raytrace/vector.py:69-74 | every entry k of the extraction is the entry at the true position of rank k |
| Masked.PlaceDefined | raytrace/vector.py:76-79 | no contract of its own, the condition under which `np.place` does not raise ValueError (mask of the array's length, and values unless nothing is selected); stated through PlaceInto, V3Array.Place and CollisionResult.Place |
| Masked.Place | raytrace/vector.py:76-79 | `np.place` keeps the length (its values are stated by the lemmas below) |
| Masked.CopyTo | raytrace/render.py:46 | `np.copyto(..., where=mask)` keeps the length |
| Masked.Repeat | raytrace/render.py:23-24 | `np.repeat(s, n)` has \|s\| · n entries |
| Masked.RepeatAt | raytrace/render.py:23-24 | entry k·n + t of `np.repeat(s, n)` is s[k] for every t < n |
| Masked.RepeatOne | raytrace/render.py:23-24 | repeating a one-entry list n times gives n copies of the value |
| Masked.PlaceOne | raytrace/render.py:45 | placing a single value writes it at every true position and nowhere else |
| Masked.ExtractPlace | raytrace/render.py:70-76 | extracting at the mask after placing w at the mask gives w back |
| Masked.ExtractPlacePrefix | raytrace/vector.py:69-79 | with at least Count(mask) values, extraction after placement returns the first Count(mask) values |
| Masked.PlaceExtract | raytrace/vector.py:69-79 | placing a sequence's own extraction back changes nothing |
| Masked.CopyToIsPlace | raytrace/vector.py:76-84 | the masked copy equals placing the source's masked entries at the mask |
| Masked.CopyToAllOrNothing | raytrace/render.py:46 | an all-true mask copies the source, an all-false mask keeps the destination |
| Masked.PlaceInto | raytrace/vector.py:76-79 | the array method accepts exactly what `np.place` accepts; if accepted the array becomes `Place` of its old contents, otherwise it is unchanged |
| Masked.CopyInto | raytrace/vector.py:81-84 | the array becomes `CopyTo` of its old contents |
| Vector.V3.AllEqual | raytrace/vector.py:13-30 | `allEqual` holds exactly when the two batches are equal |
| Vector.V3.Add | raytrace/vector.py:32-33 | the sum of two batches of one size has that size |
| Vector.V3.Sub | raytrace/vector.py:35-36 | the difference of two batches of one size has that size |
| Vector.V3.Mul | raytrace/vector.py:38-42 | the product by a V3 has the operands' size |
| Vector.V3.Scale | raytrace/vector.py:44-45 | scaling by a number keeps the size |
| Vector.V3.ScaleEach | raytrace/vector.py:38-45 | scaling by an array of one factor per vector keeps the size |
| Vector.V3.Dot | raytrace/vector.py:47-48 | the dot product has one entry per vector |
| Vector.V3.NormSq | raytrace/vector.py:50-51 | `normsq()` is `dot(self)` and is never negative |
| Vector.V3.Cross | raytrace/vector.py:59-64 | the cross product keeps the size |
| Vector.V3.MapToXYZ | raytrace/vector.py:66-67 | each axis of the result is f of that axis |
| Vector.V3.Repeat | tests/testvector.py:51-58 | `repeat(n)` gives n times as many vectors |
| Vector.V3.Extract | raytrace/vector.py:69-74 | `extract(mask)` gives one vector per true position |
| Vector.V3.Place | raytrace/vector.py:76-79 | the value left by `place` has the original size |
| Vector.V3.CopyFrom | raytrace/vector.py:81-84 | the value left by `copyfrom` has the original size |
| Vector.Point | raytrace/vector.py:5-8 | `V3(a, b, c)` of numbers holds a, b and c |
| Vector.Fill | raytrace/render.py:57 | n copies of a vector form a batch of n |
| Vector.FillIsRepeat | raytrace/render.py:57 | `v.repeat(n)` for a single vector is n copies of it |
| Vector.ScaleComponentwise | raytrace/vector.py:44-45 | entry i of `scale(c)` is c times entry i on every axis |
| Vector.AddSub | raytrace/vector.py:32-36 | `(a + b) - b == a` |
| Vector.AddCommutes | raytrace/vector.py:32-33 | `a + b == b + a` |
| Vector.DotSymmetric | raytrace/vector.py:47-48 | `a.dot(b) == b.dot(a)` |
| Vector.TripleProductVanishes | raytrace/vector.py:59-64 | for single vectors, a × b has zero dot product with a and with b |
| Vector.CrossOrthogonal | raytrace/vector.py:59-64 | every vector of `a.cross(b)` is orthogonal to the matching vectors of a and of b |
| Vector.CrossAnticommutes | raytrace/vector.py:59-64 | `a.cross(b) == b.cross(a).scale(-1)` |
| Vector.ArithmeticExamples | tests/testvector.py:27-41 | the worked sums, differences, products, scalings, dot, normsq and cross of the unvectorised tests |
| Vector.MapRepeatIsRepeat | tests/testvector.py:42-58 | mapping `np.repeat(axis, n)` over the axes is `repeat(n)` |
| Vector.RepeatExample | tests/testvector.py:51-58 | `V3(1, 2, 3).repeat(2)` is `V3([1, 1], [2, 2], [3, 3])` |
| Vector.BatchRepeatExample | tests/testvector.py:146-153 | the batch `repeat(2)` example: each vector twice, in order |
| Vector.V3ExtractAt | raytrace/vector.py:69-74 | the vector at a true position i is vector Count(mask[..i]) of `extract(mask)` |
| Vector.V3ExtractPlace | raytrace/render.py:70-76 | `place(mask, w)` followed by `extract(mask)` gives w |
| Vector.V3PlaceExtract | raytrace/vector.py:69-79 | placing a batch's own extraction changes nothing |
| Vector.V3CopyFromIsPlace | raytrace/vector.py:76-84 | `copyfrom(src, where=mask)` is `place(mask, src.extract(mask))` |
| Vector.V3PlaceOne | raytrace/render.py:65 | placing a single colour writes it at every true position |
| Vector.V3Array.constructor | raytrace/vector.py:5-8 | fresh axis arrays holding the given batch |
| Vector.V3Array.Place | raytrace/vector.py:76-79 | `place` succeeds exactly when `np.place` accepts the x axis; the new contents are `V3.Place` of the old, and nothing changes on failure |
| Vector.V3Array.CopyFrom | raytrace/vector.py:81-84 | the new contents are `V3.CopyFrom` of the old |
| Distance.Less | raytrace/render.py:44 | no contract of its own; stated by LessWithInf and LessIsStrictTotalOrder |
| Distance.LessWithInf | raytrace/render.py:44 | `inf < x` is false, a finite distance is below `inf`, and finite distances compare as numbers |
| Distance.LessIsStrictTotalOrder | raytrace/render.py:44 | `<` on distances with `inf` is irreflexive, transitive and total |
| Distance.LessMask | raytrace/render.py:44 | `collisions.dist < distance` has one entry per ray |
| Geometry.Offset | raytrace/geometry.py:13 | `positions - center` keeps the batch size |
| Geometry.Parallel | raytrace/geometry.py:14 | `x_para` keeps the batch size |
| Geometry.Perpendicular | raytrace/geometry.py:15 | `x_perp` keeps the batch size |
| Geometry.MissedAsWritten | raytrace/geometry.py:19-25 | no contract of its own; stated by IntersectionsAsWrittenAt, MissConditionsAsWritten, AsWrittenMissesHit and AsWrittenKeepsMiss |
| Geometry.Missed | raytrace/geometry.py:19-25 | no contract of its own, the test with radius squared in place of the literal 1; stated by IntersectionsAt, MissConditions, KeptRayEntersSphere and EnteringRayIsKept |
| Geometry.MissMaskAsWritten | raytrace/geometry.py:19-25 | the `miss` array as written has one entry per ray |
| Geometry.MissMask | raytrace/geometry.py:19-25 | the corrected `miss` array has one entry per ray |
| Geometry.MarkMisses | raytrace/geometry.py:26 | `np.place(distance, miss, np.inf)` keeps one distance per ray |
| Geometry.MarkMissesAt | raytrace/geometry.py:26 | a missed ray gets `inf`; every other ray keeps its distance |
| Geometry.IntersectionsAsWritten | raytrace/geometry.py:9-30 | the reported distances as written: one per ray |
| Geometry.Intersections | raytrace/geometry.py:9-30 | the corrected distances: one per ray |
| Geometry.IntersectionsAsWrittenAt | raytrace/geometry.py:19-26 | a ray gets `inf` exactly when it is missed by the test as written |
| Geometry.IntersectionsAt | raytrace/geometry.py:19-26 | a ray gets `inf` exactly when it is missed by the corrected test |
| Geometry.MissConditionsAsWritten | raytrace/geometry.py:19-26 | each condition as written (origin inside, perpendicular offset squared above 1, sphere not ahead) forces `inf`; a ray meeting none keeps its distance |
| Geometry.MissConditions | raytrace/geometry.py:19-26 | the same with radius squared in the perpendicular test |
| Geometry.Pythagoras | raytrace/geometry.py:13-16 | along a unit direction, the squared distance from the centre at parameter t is the perpendicular part plus (t + x·d)² |
| Geometry.PerpendicularOrthogonal | raytrace/geometry.py:14-15 | the perpendicular part has zero dot product with a unit direction |
| Geometry.RayScalars | raytrace/geometry.py:13-23 | the batch quantities `x.normsq()`, `x.dot(directions)` and `x_perp.normsq()` of ray j in scalar form |
| Geometry.Decomposition | raytrace/geometry.py:13-15 | `x_para + x_perp == x`, and for a unit direction `x_perp` is orthogonal to the ray |
| Geometry.ParallelPlusPerpendicular | raytrace/geometry.py:14-15 | `x_para + x_perp == x` for every batch |
| Geometry.PerpendicularDot | raytrace/geometry.py:14-15 | `x_perp.dot(directions)` is 0 at a unit direction |
| Geometry.PointSqSplits | raytrace/geometry.py:13-16 | for ray j: squared distance at t = `x_perp.normsq()` + (t + `x.dot(d)`)² |
| Geometry.OriginAtZero | raytrace/geometry.py:20-22 | `x.normsq()` is the squared distance at t = 0, and `x_perp.normsq()` is not negative |
| Geometry.KeptRayEntersSphere | raytrace/geometry.py:19-25 | a ray kept by the corrected test starts outside the sphere, and at t = -(x·d) > 0 it reaches a point inside the ball |
| Geometry.EnteringRayIsKept | raytrace/geometry.py:19-25 | a ray that starts outside and reaches the ball at some t > 0 is kept (the converse) |
| Geometry.EntryArith | raytrace/geometry.py:19-25 | the arithmetic step of the converse: such a ray has x·d < 0 and perpendicular part ≤ r² |
| Geometry.Square | raytrace/geometry.py:16 | a square is never negative |
| Geometry.MulIncreasing | raytrace/geometry.py:23 | (t + p)² > p² for p ≥ 0 and t > 0 |
| Geometry.WideRayNeverMeets | raytrace/geometry.py:22 | a ray whose perpendicular part exceeds r² stays outside the ball at every t |
| Geometry.KeptRayHasRoot | raytrace/geometry.py:16 | a kept ray leaves a non-negative `radius**2 - x_perp.normsq()` under the square root |
| Geometry.AsWrittenMissesHit | raytrace/geometry.py:22 | a ray 1.5 from the centre of a radius-2 sphere enters it, yet the test as written discards it |
| Geometry.AsWrittenKeepsMiss | raytrace/geometry.py:16-22 | a ray 0.7 from the centre of a radius-0.5 sphere never meets it, yet the test as written keeps it with a negative number under the square root |
| Transform.Translation.Inverse | raytrace/transform.py:11-12 | no contract of its own; stated by InverseRoundTrip and InverseInverse |
| Transform.Translation.ApplyToDifference | raytrace/transform.py:17-18 | no contract of its own; stated by ApplyToDifferenceOfPoints and DifferencesAndNormalsFixed |
| Transform.Translation.ApplyToNormal | raytrace/transform.py:20-21 | no contract of its own; stated by DifferencesAndNormalsFixed |
| Transform.Translation.Apply | raytrace/transform.py:14-15 | `v + delta` keeps the batch size |
| Transform.InverseRoundTrip | raytrace/transform.py:11-15 | `inverse().apply` undoes `apply`, in both orders |
| Transform.InverseInverse | raytrace/transform.py:11-12 | inverting twice gives back the same translation |
| Transform.ApplyToDifferenceOfPoints | raytrace/transform.py:14-18 | the difference of two translated points is `applyToDifference` of their difference |
| Transform.DifferencesAndNormalsFixed | raytrace/transform.py:17-21 | differences and normals are left alone by a translation and by its inverse |
| Transform.TranslationExample | tests/testtransform.py:13-23 | delta (-1, 1, 2.5) moves (10, 11, 12) to (9, 12, 14.5), and the inverse moves it back |
| Material.MakeUniform | raytrace/material.py:3-5 | no contract of its own; stated by DefaultReflectivity and UniformIgnoresUV |
| Material.GetColor | raytrace/material.py:7-22 | no contract of its own, with u = v = 0 by default; stated by UniformIgnoresUV, CheckeredSelects and CheckeredOfSame |
| Material.GetReflectivity | raytrace/material.py:10-26 | no contract of its own, with u = v = 0 by default; stated by UniformIgnoresUV, CheckeredSelects and ReflectivityInRange |
| Material.UniformIgnoresUV | raytrace/material.py:1-11 | a uniform material has the same colour and reflectivity at every (u, v) |
| Material.DefaultReflectivity | raytrace/material.py:3-5 | without a reflectivity argument a uniform material reflects nothing |
| Material.UseFirst | raytrace/material.py:21 | no contract of its own, `floor(u + v) % 2 == 0`; stated by CheckeredSelects and CheckerboardParity |
| Material.CheckeredSelects | raytrace/material.py:20-26 | a checkered material uses mat1 exactly where floor(u + v) is even, for colour and reflectivity |
| Material.CheckerboardParity | raytrace/material.py:21 | unit steps in u or v flip the square; two steps in u do not |
| Material.CheckeredOfSame | raytrace/material.py:14-26 | a checkerboard of one material twice is that material |
| Material.ReflectivityInRange | raytrace/material.py:10-11 | built from reflectivities in [0, 1], any material reports one in [0, 1] at every point |
| Lighting.AmbientLight | raytrace/lighting.py:6-8 | no contract of its own; stated by LightDefaults and AmbientIsConstant |
| Lighting.DirectionalLight | raytrace/lighting.py:16-19 | no contract of its own; stated by LightDefaults |
| Lighting.LightDefaults | raytrace/lighting.py:6-19 | the defaults are brightness 1 and colour (1, 1, 1), and a directional light stores the normalised direction |
| Lighting.ShadowProbe | raytrace/lighting.py:25-28 | one shadow ray per collision |
| Lighting.Unblocked | raytrace/lighting.py:30 | `shadow_mask` has one entry per collision |
| Lighting.Illuminate | raytrace/lighting.py:10-11 | `illuminate` gives one colour per collision |
| Lighting.AmbientIsConstant | raytrace/lighting.py:10-11 | ambient light gives `color * brightness` at every collision, whatever the normals, points and scene |
| Lighting.FacingFactor | raytrace/lighting.py:22 | the clipped facing factor lies in [0, 1] and is 0 where the surface faces away |
| Lighting.ProbeGeometry | raytrace/lighting.py:25-28 | shadow ray j starts at incident point j and runs along `-direction` |
| Lighting.Lit | raytrace/lighting.py:30 | the shadow factor is 0 or 1 |
| Lighting.LitIffUnblocked | raytrace/lighting.py:29-30 | the factor is 1 exactly when the probe hits nothing (`inf`) |
| Lighting.DirectionalAt | raytrace/lighting.py:21-32 | each channel is shadow factor × facing factor × brightness × colour |
| Lighting.DirectionalShadow | raytrace/lighting.py:21-32 | a shadowed collision is black; an unshadowed one gets facing × brightness × colour |
| Lighting.DirectionalBounded | raytrace/lighting.py:21-32 | every channel lies between 0 and brightness × colour when that is not negative |
| Lighting.ChannelBound | raytrace/lighting.py:32 | the per-channel step of the two lemmas above |
| Scene.MaterialsKnown | raytrace/render.py:42 | no contract of its own, every object's material name is in the material list, so `material_indeces[...]` raises no KeyError; stated through FindNearest, Render and RenderSpec |
| Scene.IndexOf | raytrace/render.py:36-37 | `material_indeces[name]` is the position of the last entry with that name, or -1 (KeyError) exactly when no entry has it |
| Scene.MaterialIndices | raytrace/render.py:42 | one index per object, each -1 or a valid position |
| Scene.Nearest | raytrace/render.py:44-46 | no contract of its own, the fold of `distance` over the objects under strict `<`; stated by WinnerIsFirstNearest and DistanceStep |
| Scene.Winner | raytrace/render.py:41-47 | the winning object is -1 or a valid position |
| Scene.WinnerIsFirstNearest | raytrace/render.py:41-47 | the nearest distance is the minimum, `inf` exactly when every object misses; the winner is -1 exactly then, and otherwise the first object at the minimum (later ties do not replace it) |
| Scene.ObjectHits | raytrace/render.py:43 | one well-sized hit record per object |
| Scene.NearestDistances | raytrace/render.py:24 | one nearest distance per ray |
| Scene.Winners | raytrace/render.py:41-47 | per ray, -1 or a valid object position |
| Scene.NearestIndices | raytrace/render.py:23 | one material index per ray |
| Scene.NearestNormals | raytrace/render.py:25-29 | one normal per ray |
| Scene.NoObjects | raytrace/render.py:23-29 | before any object: `inf`, index -1 and zero normals everywhere |
| Scene.ColumnStep | raytrace/render.py:44 | object k replaces a ray's nearest hit exactly when it is strictly nearer |
| Scene.DistanceStep | raytrace/render.py:44-46 | one pass of the loop on `distance` is the masked copy of object k's distances |
| Scene.WinnerStep | raytrace/render.py:44 | where the mask holds the winner becomes k; elsewhere it stays |
| Scene.IndexStep | raytrace/render.py:44-45 | one pass on `nearest_material_index` is `np.place` of object k's index |
| Scene.NormalStep | raytrace/render.py:44-47 | one pass on `normal` is `copyfrom` of object k's normals |
| Scene.MergeObject | raytrace/render.py:43-47 | one pass of the object loop moves the three buffers from the first k objects to the first k + 1 |
| Scene.FindNearest | raytrace/render.py:41-47 | fails exactly when a material lookup raises; otherwise the buffers are the nearest distance, material index and normal per ray |
| Scene.LightingFactors | raytrace/render.py:54-55 | one lighting factor per ray |
| Scene.LightDirection | raytrace/render.py:51 | no contract of its own, `scene['lighting']['directional'].unit()` through the abstract normalisation; stated through LightingFactors, ShadeParts and OppositeNormalShowsColor |
| Scene.Facing | raytrace/render.py:54 | the clipped facing term lies in [0, 1] |
| Scene.LightingBounds | raytrace/render.py:51-55 | a factor is facing × (1 − ambient) + ambient; it lies in [ambient, 1] for ambient in [0, 1]; it is the ambient level facing away, and 1 for a normal opposite a unit light |
| Scene.ScaleBelowOne | raytrace/render.py:55 | f · c lies in [0, c] for f in [0, 1] and c ≥ 0 |
| Scene.IndexMask | raytrace/render.py:63 | `nearest_material_index == i` has one entry per ray |
| Scene.MatteUpTo | raytrace/render.py:62-65 | the matte buffer after some materials is a batch of one colour per ray |
| Scene.ReflectivityUpTo | raytrace/render.py:62-66 | the reflectivity buffer after some materials has one entry per ray |
| Scene.MatteColors | raytrace/render.py:57 | `matte_component` has one colour per ray |
| Scene.Reflectivities | raytrace/render.py:60 | `reflectivity` has one entry per ray |
| Scene.NoMaterials | raytrace/render.py:57-60 | before the material loop everything is black with reflectivity 0 |
| Scene.MaterialStep | raytrace/render.py:62-66 | one pass places material i's colour and reflectivity exactly where the index is i |
| Scene.UnhitIsBlack | raytrace/render.py:57-66 | a ray with index -1 stays black with reflectivity 0 |
| Scene.NearestIndexIsWinnersMaterial | raytrace/render.py:41-47 | a ray's index is -1 exactly when its distance is `inf`; otherwise it is a valid material index, and it is the material index of the winning object, whose distance for that ray is the nearest distance |
| Scene.Shade | raytrace/render.py:20-66 | the buffers before composition, one entry per ray |
| Scene.ShadeInfIffAllMiss | raytrace/render.py:41-47 | a ray's distance is `inf` exactly when every object misses it |
| Scene.ShadeMiss | raytrace/render.py:41-68 | `inf` exactly when index -1; such a ray is black with reflectivity 0, so a reflective ray always has a finite distance |
| Scene.ShadeParts | raytrace/render.py:51-66 | the buffers are the lighting factors and material loop of the nearest hits |
| Scene.MaterialOfIndex | raytrace/render.py:62-66 | a ray with index i gets material i's colour and reflectivity |
| Scene.ReflectivitiesZero | raytrace/render.py:62-66 | if no material reflects, no ray does |
| Scene.ShadeMaterial | raytrace/render.py:41-66 | a hit ray gets the colour and reflectivity of the material at its nearest index (NearestIndexIsWinnersMaterial shows that index is the winning object's material) |
| Renderer.CollisionResult.Value | raytrace/render.py:8-17 | the pair of buffers has one entry per ray |
| Renderer.CollisionResult.constructor | raytrace/render.py:9-11 | `area` distances `inf` and `area` zero normals |
| Renderer.CollisionResult.Place | raytrace/render.py:12-14 | `np.place` on the distances, then `place` on the normals; each is applied exactly when NumPy accepts it |
| Renderer.CollisionResult.CopyFrom | raytrace/render.py:15-17 | the masked copy of another hit record's distances and normals |
| Renderer.ReflectiveMask | raytrace/render.py:68 | `reflectivity > 0.0` has one entry per ray |
| Renderer.Finite | raytrace/render.py:70 | no contract of its own; a finite distance as its number and `inf` as 0 (see Left out); stated through HitPointsAt |
| Renderer.HitPoints | raytrace/render.py:70 | `ray[0] + ray[1] * distance` has one point per ray |
| Renderer.HitPointsAt | raytrace/render.py:70 | hit point j is origin j plus distance j times direction j, on each axis |
| Renderer.ReflectedRays | raytrace/render.py:70-74 | the reflected batch has one ray per reflective ray |
| Renderer.ReflectedRaysAt | raytrace/render.py:70-74 | reflective ray j becomes reflected ray k = its rank among the reflective rays; ray k starts at ray j's hit point `origin + dir·distance` and leaves along `incident − 2·(incident·normal)·u`, u being entry k of the normalised reflective normals |
| Renderer.Complement | raytrace/render.py:78 | `1.0 - reflectivity` has one entry per ray |
| Renderer.Compose | raytrace/render.py:78-79 | the raster has one colour per ray |
| Renderer.Blend | raytrace/render.py:78-79 | no contract of its own, matte × lighting × (1 − r) + reflective × r for one channel; stated by ComposeAt, BlendExtremes and RenderAt |
| Renderer.ComposeAt | raytrace/render.py:78-79 | each channel is matte × lighting × (1 − r) + reflected × r |
| Renderer.BlendExtremes | raytrace/render.py:78-79 | with r = 0 only the lit matte colour remains; with r = 1 only the reflection |
| Renderer.RenderSpec | raytrace/render.py:19-81 | a raster, one colour per ray, exactly when every object's material is known |
| Renderer.ReflectiveComponent | raytrace/render.py:68-76 | `reflective_component` has one colour per ray |
| Renderer.BounceDepth | raytrace/render.py:69-75 | the recursion is at most `bounce` deep, and it recurses only with bounces left, known materials and some reflective ray |
| Renderer.RenderAt | raytrace/render.py:68-79 | a non-reflective ray, or one out of bounces, gets matte × lighting × (1 − r); a reflective ray also gets r × the colour of its reflected ray, entry Count(mask[..j]) of the recursive raster |
| Renderer.MissRendersBlack | raytrace/render.py:41-79 | a ray that every object misses is black at any bounce count |
| Renderer.PrecomputedArea | raytrace/camera.py:149-150 | the area a precomputed camera is meant to report: its ray count |
| Renderer.PrecomputedAreaAsWritten | raytrace/camera.py:149-150 | no contract of its own, `len((positions, directions))` as written; stated by PrecomputedAreaIsTwo |
| Renderer.PrecomputedAreaIsTwo | raytrace/camera.py:149-150 | `len` of the pair `(positions, directions)` is 2 for every batch, so a batch of 3 rays gets the wrong area |
| Renderer.ShadeIs | raytrace/render.py:20-66 | buffers that agree with the reference functions are the reference shading |
| Renderer.AssignMaterials | raytrace/render.py:57-66 | the material loop fills `matte_component` and `reflectivity` with `MatteColors` and `Reflectivities` of the index buffer |
| Renderer.Render | raytrace/render.py:19-81 | fails exactly when a material lookup raises; otherwise the raster is `RenderSpec` |
| Renderer.Reflection | raytrace/render.py:68-76 | the reflective component built by recursion is `ReflectiveComponent` |
| Raytrace.FlatRaster | raytrace/__init__.py:52 | `raster += matte_component * lighting` has one colour per ray |
| Raytrace.FlatRasterAt | raytrace/__init__.py:52 | each channel is matte × lighting |
| Raytrace.FlatPixelColor | raytrace/__init__.py:52 | a ray whose matte colour is c shows c × lighting |
| Raytrace.ComposeWithoutReflection | raytrace/__init__.py:52 | with reflectivity 0 everywhere and a black reflection, `render.py`'s composition is this raster |
| Raytrace.FlatRenderSpec | raytrace/__init__.py:8-54 | a raster, one colour per ray, exactly when every object's material is known |
| Raytrace.FlatMissIsBlack | raytrace/__init__.py:29-52 | a ray that every object misses is black |
| Raytrace.FlatHitShowsMaterial | raytrace/__init__.py:29-52 | a hit ray shows its winning material's colour × its lighting factor |
| Raytrace.OppositeNormalShowsColor | raytrace/__init__.py:39-52 | a hit ray whose normal is opposite the unit light direction shows exactly the material colour |
| Raytrace.NoReflectionSameRaster | raytrace/render.py:68-79 | with no reflective material, `render.py` draws what `__init__.py` draws, at any bounce count |
| Raytrace.NoneReflective | raytrace/render.py:68-69 | with all reflectivities 0 the reflective mask is empty |
| Raytrace.AssignColors | raytrace/__init__.py:45-50 | the material loop fills `matte_component` with `MatteColors` of the index buffer |
| Raytrace.Render | raytrace/__init__.py:8-54 | a raster of `width * height` colours; fails exactly when a material lookup raises, otherwise the raster is `FlatRenderSpec` |

## Left out

- The cameras (`raytrace/camera.py`) and `example.py` are not part of this model. A renderer receives the camera's rays, and `Raytrace.Render` its resolution.
- `V3.norm` and `V3.unit` need square roots. `unit()` is the parameter `normalize`, which only has to keep the batch size. So the reflected direction, the light direction and the sphere normal are not pinned down.
- The distance computed in `Sphere.intersections` uses `np.sqrt`, so it enters `Geometry.Intersections` as an input. The sphere's normal is not modelled.
- The renderers take `intersect` as a parameter and do not call `Geometry.Intersections`.
- `Scene.WellSized`: the renderers' geometry is abstract; it is only required to return one distance and one normal per ray.
- Lighting: the `collide` function and the collision record are not defined by the core files. `collide` is a parameter and the record is reduced to `area`, `norm` and `incd`.
- Scene lighting: the renderers read one directional vector and one ambient level; `lighting.py`'s light objects are modelled on their own.
- NumPy broadcasting is modelled only where the source relies on it, a single vector against a batch (`Vector.Fill`). Elsewhere operands must have equal lengths.
- Python's dynamic types are not modelled: the `isinstance` branches of `__eq__`, `allEqual` and `__mul__`, `__str__`, integer versus float dtypes and `copyfrom`'s `casting` argument.
- Floating point is not modelled: numbers are exact reals, so NaN and rounding are out of scope.
- `Vector.V3.AllEqual` states batch equality; the scalar `__eq__` is the same test on batches of length one.
- A `V3` whose axes have different lengths cannot be built (`tests/testvector.py:19-25` expects a ValueError).
- Vector.V3Array: its `Valid` demands three distinct axis arrays; `V3(a, a, a)` in Python would alias its axes, so that `place` and `copyfrom` write one array three times. The renderers never build such a batch, and the model leaves aliased axes out.
- `Renderer.Finite`: `ray[1] * distance` with `inf` gives `inf` or NaN entries in NumPy. Those rays are never reflective, so they are never extracted; the model uses 0 there.
- `Material.GetColor` and `Material.GetReflectivity` are modelled per surface point, not on batches. `CheckeredMaterial` calls `.where` (not defined on `V3` or floats) and `np` (not imported in `material.py`). The model follows the evident intent: mat1 where floor(u + v) is even, mat2 elsewhere. The renderers read `color` and `reflectivity` directly, so their scenes hold uniform materials only.
- `Scene.IndexOf`: the `materials` dictionary is a sequence of (name, material) pairs in insertion order. A Python dictionary has no repeated names. The model allows them and, as the dictionary comprehension does, gives the last position.
- Reflected batches are sized by their ray count (`Renderer.PrecomputedArea`), not by the `CameraPrecomputed.area()` of the source; see the finding below.
- Vector.V3.Add: its own contract states only the batch size; its values are stated by the lemmas beside it.
- Vector.V3.Sub: its own contract states only the batch size; its values are stated by the lemmas beside it.
- Vector.V3.Mul: its own contract states only the batch size; its values are stated by the lemmas beside it.
- Vector.V3.Scale: its own contract states only the batch size; its values are stated by the lemmas beside it.
- Vector.V3.ScaleEach: its own contract states only the batch size; its values are stated by the lemmas beside it.
- Vector.V3.Dot: its own contract states only the batch size; its values are stated by the lemmas beside it.
- Vector.V3.Cross: its own contract states only the batch size; its values are stated by the lemmas beside it.
- Vector.V3.Place: its own contract states only the batch size; its values are stated by the lemmas beside it.
- Vector.V3.CopyFrom: its own contract states only the batch size; its values are stated by the lemmas beside it.
- Masked.Count: its own contract states only sizes; what it computes is stated by CountZero, CountStep and RankBelowCount.
- Masked.Extract: its own contract states only sizes; what it computes is stated by ExtractAt, ExtractFrom and ExtractPlace.
- Masked.Place: its own contract states only sizes; what it computes is stated by PlaceOne, ExtractPlace, PlaceExtract and PlaceInto.
- Masked.CopyTo: its own contract states only sizes; what it computes is stated by CopyToIsPlace, CopyToAllOrNothing and CopyInto.
- Masked.Repeat: its own contract states only sizes; what it computes is stated by RepeatAt and RepeatOne.
- Vector.V3.Repeat: its own contract states only sizes; what it computes is stated by MapRepeatIsRepeat, RepeatExample and BatchRepeatExample.
- Vector.V3.Extract: its own contract states only sizes; what it computes is stated by V3ExtractAt and V3ExtractPlace.
- Vector.Fill: its own contract states only sizes; what it computes is stated by FillIsRepeat.
- Geometry.Offset: its own contract states only sizes; what it computes is stated by RayScalars.
- Geometry.Parallel: its own contract states only sizes; what it computes is stated by Decomposition and ParallelPlusPerpendicular.
- Geometry.Perpendicular: its own contract states only sizes; what it computes is stated by Decomposition, PerpendicularDot and PointSqSplits.
- Geometry.MissMaskAsWritten: its own contract states only sizes; what it computes is stated by IntersectionsAsWrittenAt and MissConditionsAsWritten.
- Geometry.MissMask: its own contract states only sizes; what it computes is stated by IntersectionsAt, MissConditions, KeptRayEntersSphere and EnteringRayIsKept.
- Geometry.MarkMisses: its own contract states only sizes; what it computes is stated by MarkMissesAt.
- Geometry.IntersectionsAsWritten: its own contract states only sizes; what it computes is stated by IntersectionsAsWrittenAt and MissConditionsAsWritten.
- Geometry.Intersections: its own contract states only sizes; what it computes is stated by IntersectionsAt and MissConditions.
- Transform.Translation.Apply: its own contract states only sizes; what it computes is stated by InverseRoundTrip and TranslationExample.
- Lighting.ShadowProbe: its own contract states only sizes; what it computes is stated by ProbeGeometry.
- Lighting.Unblocked: its own contract states only sizes; what it computes is stated by LitIffUnblocked.
- Lighting.Illuminate: its own contract states only sizes; what it computes is stated by AmbientIsConstant, DirectionalAt, DirectionalShadow and DirectionalBounded.
- Scene.ObjectHits: its own contract states only sizes; what it computes is stated by ShadeInfIffAllMiss.
- Scene.NearestDistances: its own contract states only sizes; what it computes is stated by WinnerIsFirstNearest, DistanceStep and ShadeInfIffAllMiss.
- Scene.Winners: its own contract states only sizes; what it computes is stated by WinnerIsFirstNearest and WinnerStep.
- Scene.NearestIndices: its own contract states only sizes; what it computes is stated by IndexStep and NearestIndexIsWinnersMaterial.
- Scene.NearestNormals: its own contract states only sizes; what it computes is stated by NoObjects and NormalStep.
- Scene.LightingFactors: its own contract states only sizes; what it computes is stated by LightingBounds.
- Scene.IndexMask: its own contract states only sizes; what it computes is stated by MaterialStep.
- Scene.MatteUpTo: its own contract states only sizes; what it computes is stated by NoMaterials and MaterialStep.
- Scene.ReflectivityUpTo: its own contract states only sizes; what it computes is stated by NoMaterials and MaterialStep.
- Scene.MatteColors: its own contract states only sizes; what it computes is stated by UnhitIsBlack and MaterialOfIndex.
- Scene.Reflectivities: its own contract states only sizes; what it computes is stated by UnhitIsBlack, MaterialOfIndex and ReflectivitiesZero.
- Scene.Shade: its own contract states only sizes; what it computes is stated by ShadeParts, ShadeMiss and ShadeMaterial.
- Renderer.CollisionResult.Value: its own contract states only sizes; what it computes is stated by CollisionResult.Place and CollisionResult.CopyFrom.
- Renderer.ReflectiveMask: its own contract states only sizes; what it computes is stated by NoneReflective and RenderAt.
- Renderer.HitPoints: its own contract states only sizes; what it computes is stated by HitPointsAt.
- Renderer.ReflectedRays: its own contract states only sizes; what it computes is stated by ReflectedRaysAt.
- Renderer.Complement: its own contract states only sizes; what it computes is stated by ComposeAt.
- Renderer.Compose: its own contract states only sizes; what it computes is stated by ComposeAt and BlendExtremes.
- Renderer.ReflectiveComponent: its own contract states only sizes; what it computes is stated by RenderAt.
- Raytrace.FlatRaster: its own contract states only sizes; what it computes is stated by FlatRasterAt and FlatPixelColor.
- The test files exercise later versions of the API (`Ray`, `Ground`, `Difference`, `interior`, `invert`, lists of lights); those are not part of this model.

## Findings

| source | as written | input that shows it | evidently intended | confidence | as-written member | corrected member |
|---|---|---|---|---|---|---|
| raytrace/geometry.py:22 | the perpendicular miss test is `x_perp.normsq() > 1`, whatever the radius | sphere of radius 2 at the origin, ray from (-5, 1.5, 0) along +x: it is inside the sphere at t = 5 but is discarded | `x_perp.normsq() > self.radius**2`: a ray that starts outside and enters the ball ahead is kept | not executed | Geometry.AsWrittenMissesHit | Geometry.EnteringRayIsKept |
| raytrace/geometry.py:22 | the same test with the literal 1 | sphere of radius 0.5 at the origin, ray from (-5, 0.7, 0) along +x: it never meets the sphere but is kept, with 0.25 − 0.49 under the square root, so `intersections` returns NaN for it instead of `inf`; NaN loses every `<` where the distances are compared (raytrace/__init__.py:32, and raytrace/render.py:44 for hits held as a `CollisionResult`), so the raster still treats the ray as a miss and the defect shows only in `intersections`' result | with radius squared, every kept ray enters the ball and has a non-negative number under the square root | not executed | Geometry.AsWrittenKeepsMiss | Geometry.KeptRayEntersSphere |
| raytrace/camera.py:149-150 | `CameraPrecomputed.area()` returns `len(self.precomputed_rays)`, the length of the pair `(positions, directions)`, so always 2 | a reflected batch of three rays: the recursive `render` builds its buffers with 2 entries (raytrace/render.py:23-34), and the comparison at raytrace/render.py:44 of a 3-entry `collisions.dist` with the 2-entry `distance` raises a broadcasting ValueError; with exactly one reflective ray broadcasting hides the defect, and a batch of exactly two reflective rays gets the right area by coincidence | the number of rays in the batch | not executed | Renderer.PrecomputedAreaIsTwo | Renderer.PrecomputedArea |
