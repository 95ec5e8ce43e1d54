/** Materials of raytrace/material.py. The getters act elementwise on
    batches of surface parameters (u, v), so they are modelled per point. */
module Material {
  import opened Vector

  datatype Material =
    | Uniform(color: Vec, reflectivity: real)
    | Checkered(mat1: Material, mat2: Material)

  /** The materials whose `color` and `reflectivity` fields the renderers read. */
  type UniformMaterial = m: Material | m.Uniform? witness Uniform(Point(0.0, 0.0, 0.0), 0.0)

  /** `UniformMaterial(color, reflectivity = 0.0)`. */
  function MakeUniform(color: Vec, reflectivity: real := 0.0): (m: UniformMaterial)
  {
    Uniform(color, reflectivity)
  }

  /** The checkerboard parity `np.floor(u + v) % 2 == 0`; Python's `%` with
      divisor 2 is non-negative, as Dafny's is. */
  predicate UseFirst(u: real, v: real)
  {
    (u + v).Floor % 2 == 0
  }

  function GetColor(m: Material, u: real := 0.0, v: real := 0.0): Vec
  {
    match m
    case Uniform(color, _) => color
    case Checkered(m1, m2) => if UseFirst(u, v) then GetColor(m1, u, v) else GetColor(m2, u, v)
  }

  function GetReflectivity(m: Material, u: real := 0.0, v: real := 0.0): real
  {
    match m
    case Uniform(_, r) => r
    case Checkered(m1, m2) => if UseFirst(u, v) then GetReflectivity(m1, u, v) else GetReflectivity(m2, u, v)
  }

  /** A uniform material ignores the surface parameters. */
  lemma UniformIgnoresUV(color: Vec, reflectivity: real, u: real, v: real, u': real, v': real)
    ensures GetColor(Uniform(color, reflectivity), u, v) == color
    ensures GetColor(Uniform(color, reflectivity), u, v) == GetColor(Uniform(color, reflectivity), u', v')
    ensures GetReflectivity(Uniform(color, reflectivity), u, v) == reflectivity
  {
  }

  /** Without an explicit reflectivity a uniform material reflects nothing. */
  lemma DefaultReflectivity(color: Vec, u: real, v: real)
    ensures GetReflectivity(MakeUniform(color), u, v) == 0.0
    ensures GetColor(MakeUniform(color), u, v) == color
  {
  }

  /** The checkered material takes mat1 exactly where floor(u + v) is even. */
  lemma CheckeredSelects(m1: Material, m2: Material, u: real, v: real)
    ensures GetColor(Checkered(m1, m2), u, v) == (if (u + v).Floor % 2 == 0 then GetColor(m1, u, v) else GetColor(m2, u, v))
    ensures GetReflectivity(Checkered(m1, m2), u, v) == (if (u + v).Floor % 2 == 0 then GetReflectivity(m1, u, v) else GetReflectivity(m2, u, v))
  {
  }

  /** Neighbouring unit squares alternate and the pattern has period 2. */
  lemma CheckerboardParity(u: real, v: real)
    ensures UseFirst(u + 1.0, v) <==> !UseFirst(u, v)
    ensures UseFirst(u + 2.0, v) <==> UseFirst(u, v)
    ensures UseFirst(u, v + 1.0) <==> !UseFirst(u, v)
  {
    assert (u + 1.0 + v).Floor == (u + v).Floor + 1;
    assert (u + 2.0 + v).Floor == (u + v).Floor + 2;
    assert (u + (v + 1.0)).Floor == (u + v).Floor + 1;
  }

  /** A checkered material made of one material twice is that material. */
  lemma CheckeredOfSame(m: Material, u: real, v: real)
    ensures GetColor(Checkered(m, m), u, v) == GetColor(m, u, v)
    ensures GetReflectivity(Checkered(m, m), u, v) == GetReflectivity(m, u, v)
  {
  }

  /** Every uniform material inside m has reflectivity in [0, 1]. */
  predicate ReflectivitiesInRange(m: Material)
  {
    match m
    case Uniform(_, r) => 0.0 <= r <= 1.0
    case Checkered(m1, m2) => ReflectivitiesInRange(m1) && ReflectivitiesInRange(m2)
  }

  /** A material built from reflectivities in [0, 1] reports one in [0, 1]
      at every surface point. */
  lemma {:induction false} ReflectivityInRange(m: Material, u: real, v: real)
    requires ReflectivitiesInRange(m)
    ensures 0.0 <= GetReflectivity(m, u, v) <= 1.0
  {
    match m
    case Uniform(_, _) =>
    case Checkered(m1, m2) =>
      ReflectivityInRange(m1, u, v);
      ReflectivityInRange(m2, u, v);
  }
}
