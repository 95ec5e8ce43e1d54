/** The lights of raytrace/lighting.py. The collision batch they illuminate
    and the scene query `collide` are not defined by the ray tracer's own
    files, so the light reads only a batch size, normals and incident points,
    and `collide` is a parameter. */
module Lighting {
  import opened Masked
  import opened Vector
  import opened Distance
  import opened Scene

  /** What `illuminate` reads of `collisions`: `area`, `norm` and `incd`. */
  datatype Collisions = Collisions(area: nat, norm: V3, incd: V3)
  {
    predicate Valid()
    {
      norm.Valid() && incd.Valid() && norm.Len() == area && incd.Len() == area
    }
  }

  datatype Light =
    | Ambient(brightness: real, color: Vec)
    | Directional(direction: Vec, brightness: real, color: Vec)

  /** `AmbientLight(brightness = 1, color = V3(1, 1, 1))`. */
  function AmbientLight(brightness: real := 1.0, color: Vec := Point(1.0, 1.0, 1.0)): Light
  {
    Ambient(brightness, color)
  }

  /** `DirectionalLight(direction, brightness = 1, color = V3(1, 1, 1))`,
      which stores `direction.unit()`. */
  function DirectionalLight(direction: Vec, normalize: V3 -> V3, brightness: real := 1.0, color: Vec := Point(1.0, 1.0, 1.0)): Light
    requires SizePreserving(normalize)
  {
    Directional(normalize(direction), brightness, color)
  }

  /** The constructors' defaults: brightness 1 and white light, and the
      directional light keeps the normalised direction. */
  lemma LightDefaults(direction: Vec, normalize: V3 -> V3)
    requires SizePreserving(normalize)
    ensures AmbientLight() == Ambient(1.0, Point(1.0, 1.0, 1.0))
    ensures var d := DirectionalLight(direction, normalize);
      d.Directional? && d.direction == normalize(direction) && d.brightness == 1.0 && d.color == Point(1.0, 1.0, 1.0)
  {
  }

  /** The shadow probes: from every incident point along `-direction`. */
  function ShadowProbe(direction: Vec, c: Collisions): (probe: Rays)
    requires c.Valid()
    ensures probe.Valid() && probe.Len() == c.area
  {
    Rays(c.incd, Fill(direction.Scale(-1.0), c.area))
  }

  /** `collide` reports, per probe, the squared norm of its incident point:
      `inf` where the probe hits nothing. */
  predicate CollideSized(collide: (nat, Rays) -> seq<Dist>, direction: Vec, c: Collisions)
    requires c.Valid()
  {
    |collide(c.area, ShadowProbe(direction, c))| == c.area
  }

  /** `shadow_mask`: the probe reached nothing. */
  function Unblocked(collide: (nat, Rays) -> seq<Dist>, direction: Vec, c: Collisions): (mask: seq<bool>)
    requires c.Valid() && CollideSized(collide, direction, c)
    ensures |mask| == c.area
  {
    var probe := collide(c.area, ShadowProbe(direction, c));
    seq(c.area, j requires 0 <= j < c.area => probe[j] == Inf)
  }

  /** `illuminate(scene, collisions)`, the scene being what `collide` sees. */
  function Illuminate(light: Light, c: Collisions, collide: (nat, Rays) -> seq<Dist>): (r: V3)
    requires c.Valid() && (light.Directional? ==> CollideSized(collide, light.direction, c))
    ensures r.Valid() && r.Len() == c.area
  {
    match light
    case Ambient(b, color) => Fill(color.Scale(b), c.area)
    case Directional(direction, b, color) =>
      var parallel := seq(c.area, j requires 0 <= j < c.area => Facing(direction, c.norm, j));
      var unshadowed := Fill(color.Scale(b), c.area).ScaleEach(parallel);
      var mask := Unblocked(collide, direction, c);
      unshadowed.ScaleEach(seq(c.area, j requires 0 <= j < c.area => if mask[j] then 1.0 else 0.0))
  }

  /** Ambient light gives every collision `color * brightness`, whatever the
      normals, incident points and scene. */
  lemma AmbientIsConstant(b: real, color: Vec, c: Collisions, c': Collisions, collide: (nat, Rays) -> seq<Dist>, j: nat)
    requires c.Valid() && c'.Valid() && c.area == c'.area && j < c.area
    ensures var r := Illuminate(Ambient(b, color), c, collide);
      r.x[j] == b * color.x[0] && r.y[j] == b * color.y[0] && r.z[j] == b * color.z[0]
    ensures Illuminate(Ambient(b, color), c, collide) == Illuminate(Ambient(b, color), c', collide)
  {
  }

  /** The facing factor lies in [0, 1] and is 0 where the surface faces
      away from the light. */
  lemma FacingFactor(direction: Vec, normal: V3, j: nat)
    requires normal.Valid() && j < normal.Len()
    ensures 0.0 <= Facing(direction, normal, j) <= 1.0
    ensures Fill(direction, normal.Len()).Dot(normal)[j] >= 0.0 ==> Facing(direction, normal, j) == 0.0
  {
  }

  /** Probe j starts at incident point j and travels along `-direction`. */
  lemma ProbeGeometry(direction: Vec, c: Collisions, j: nat)
    requires c.Valid() && j < c.area
    ensures var probe := ShadowProbe(direction, c);
      && probe.origin.x[j] == c.incd.x[j] && probe.origin.y[j] == c.incd.y[j] && probe.origin.z[j] == c.incd.z[j]
      && probe.dir.x[j] == -direction.x[0] && probe.dir.y[j] == -direction.y[0] && probe.dir.z[j] == -direction.z[0]
  {
  }

  /** Light factor of collision j: 1 where the probe reached nothing, else 0. */
  function Lit(collide: (nat, Rays) -> seq<Dist>, direction: Vec, c: Collisions, j: nat): (lit: real)
    requires c.Valid() && CollideSized(collide, direction, c) && j < c.area
    ensures lit == 0.0 || lit == 1.0
  {
    if Unblocked(collide, direction, c)[j] then 1.0 else 0.0
  }

  /** Channel by channel, a directional light gives `lit * factor * color * brightness`. */
  lemma DirectionalAt(direction: Vec, b: real, color: Vec, c: Collisions, collide: (nat, Rays) -> seq<Dist>, j: nat)
    requires c.Valid() && CollideSized(collide, direction, c) && j < c.area
    ensures var r, f, lit := Illuminate(Directional(direction, b, color), c, collide), Facing(direction, c.norm, j), Lit(collide, direction, c, j);
      && r.x[j] == lit * (f * (b * color.x[0]))
      && r.y[j] == lit * (f * (b * color.y[0]))
      && r.z[j] == lit * (f * (b * color.z[0]))
  {
  }

  /** A blocked probe leaves its collision dark; an unblocked one gets
      `color * brightness * factor`. */
  lemma DirectionalShadow(direction: Vec, b: real, color: Vec, c: Collisions, collide: (nat, Rays) -> seq<Dist>, j: nat)
    requires c.Valid() && CollideSized(collide, direction, c) && j < c.area
    ensures var r, f := Illuminate(Directional(direction, b, color), c, collide), Facing(direction, c.norm, j);
      var blocked := collide(c.area, ShadowProbe(direction, c))[j] != Inf;
      && (blocked ==> r.x[j] == 0.0 && r.y[j] == 0.0 && r.z[j] == 0.0)
      && (!blocked ==> r.x[j] == f * (b * color.x[0]) && r.y[j] == f * (b * color.y[0]) && r.z[j] == f * (b * color.z[0]))
  {
    LitIffUnblocked(collide, direction, c, j);
    DirectionalAt(direction, b, color, c, collide, j);
  }

  lemma LitIffUnblocked(collide: (nat, Rays) -> seq<Dist>, direction: Vec, c: Collisions, j: nat)
    requires c.Valid() && CollideSized(collide, direction, c) && j < c.area
    ensures Lit(collide, direction, c, j) == 1.0 <==> collide(c.area, ShadowProbe(direction, c))[j] == Inf
    ensures Lit(collide, direction, c, j) == 0.0 <==> collide(c.area, ShadowProbe(direction, c))[j] != Inf
  {
  }

  /** Every channel of a directional light lies between 0 and
      `color * brightness` when that is not negative. */
  lemma DirectionalBounded(direction: Vec, b: real, color: Vec, c: Collisions, collide: (nat, Rays) -> seq<Dist>, j: nat)
    requires c.Valid() && CollideSized(collide, direction, c) && j < c.area
    ensures var r := Illuminate(Directional(direction, b, color), c, collide);
      && (b * color.x[0] >= 0.0 ==> 0.0 <= r.x[j] <= b * color.x[0])
      && (b * color.y[0] >= 0.0 ==> 0.0 <= r.y[j] <= b * color.y[0])
      && (b * color.z[0] >= 0.0 ==> 0.0 <= r.z[j] <= b * color.z[0])
  {
    var r := Illuminate(Directional(direction, b, color), c, collide);
    var f, lit := Facing(direction, c.norm, j), Lit(collide, direction, c, j);
    DirectionalAt(direction, b, color, c, collide, j);
    ChannelBound(r.x[j], lit, f, b * color.x[0]);
    ChannelBound(r.y[j], lit, f, b * color.y[0]);
    ChannelBound(r.z[j], lit, f, b * color.z[0]);
  }

  lemma ChannelBound(v: real, lit: real, f: real, c: real)
    requires lit == 0.0 || lit == 1.0
    requires 0.0 <= f <= 1.0 && v == lit * (f * c)
    ensures lit == 0.0 ==> v == 0.0
    ensures lit == 1.0 ==> v == f * c
    ensures c >= 0.0 ==> 0.0 <= v <= c
  {
    if c >= 0.0 {
      ScaleBelowOne(f, c);
    }
  }
}
