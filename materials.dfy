// Surface materials and the hit record.
//
// Material has value semantics in its arithmetic (`*` and `+` build a fresh
// result), so both operators are functions. The BSSRDF pointer is an
// optional id: only its identity is ever copied, never its contents.
module Materials {
  import opened Floats
  import opened Vectors
  import opened Optional

  datatype Material = Material(
    diffColor: Vector3,
    ambColor: Vector3,
    specColor: Vector3,
    emissColor: Vector3,
    shininess: real,
    ktran: real,
    bssrdf: Option<nat>)

  /** One weighted term c * w, named so that the sums below are read as linear over such terms. */
  function Weigh(c: real, w: real): real
  {
    c * w
  }

  /** Material * scalar: all six colour and scalar fields are scaled; the bssrdf is copied from the operand. */
  function ScaleMaterial(m: Material, s: real): Material
  {
    Material(Scale(m.diffColor, s), Scale(m.ambColor, s), Scale(m.specColor, s), Scale(m.emissColor, s),
             Weigh(m.shininess, s), Weigh(m.ktran, s), m.bssrdf)
  }

  /** Material + Material: the six fields are added; the bssrdf is the LEFT operand's. */
  function AddMaterial(a: Material, b: Material): Material
  {
    Material(Add(a.diffColor, b.diffColor), Add(a.ambColor, b.ambColor), Add(a.specColor, b.specColor),
             Add(a.emissColor, b.emissColor), a.shininess + b.shininess, a.ktran + b.ktran, a.bssrdf)
  }

  /**
   * The barycentric blend a triangle hit computes:
   * m0 * w0 + m1 * w1 + m2 * w2, with left-to-right `+`. The result carries
   * vertex 0's bssrdf, whatever the other two vertices hold.
   */
  function Interpolate(m0: Material, m1: Material, m2: Material, w0: real, w1: real, w2: real): (r: Material)
    ensures r.bssrdf == m0.bssrdf
  {
    AddMaterial(AddMaterial(ScaleMaterial(m0, w0), ScaleMaterial(m1, w1)), ScaleMaterial(m2, w2))
  }

  /** Both operators pass the bssrdf of their (left) operand through; scaling by 1 changes nothing. */
  lemma OperatorsKeepBssrdf(a: Material, b: Material, s: real)
    ensures ScaleMaterial(a, s).bssrdf == a.bssrdf
    ensures AddMaterial(a, b).bssrdf == a.bssrdf && AddMaterial(b, a).bssrdf == b.bssrdf
    ensures ScaleMaterial(a, 1.0) == a
  {
  }

  /** Fields that the material file format bounds to [0, 1]. */
  predicate UnitInterval(c: real) { 0.0 <= c <= 1.0 }

  predicate UnitColor(c: Vector3) { UnitInterval(c.x) && UnitInterval(c.y) && UnitInterval(c.z) }

  /** A material whose colours, shininess and transparency all lie in [0, 1]. */
  predicate InRange(m: Material)
  {
    UnitColor(m.diffColor) && UnitColor(m.ambColor) && UnitColor(m.specColor) && UnitColor(m.emissColor)
    && UnitInterval(m.shininess) && UnitInterval(m.ktran)
  }

  /** Weights (w0, w1, w2) of a point of the triangle: each in [0, 1], summing to 1. */
  predicate Barycentric(w0: real, w1: real, w2: real)
  {
    0.0 <= w0 && 0.0 <= w1 && 0.0 <= w2 && w0 + w1 + w2 == 1.0
  }

  lemma WeightedSum(c: real, w0: real, w1: real, w2: real)
    requires w0 + w1 + w2 == 1.0
    ensures Weigh(c, w0) + Weigh(c, w1) + Weigh(c, w2) == c
  {
    assert c * w0 + c * w1 + c * w2 == c * (w0 + w1 + w2);
  }

  lemma SameColor(c: Vector3, w0: real, w1: real, w2: real)
    requires w0 + w1 + w2 == 1.0
    ensures Add(Add(Scale(c, w0), Scale(c, w1)), Scale(c, w2)) == c
  {
    WeightedSum(c.x, w0, w1, w2);
    WeightedSum(c.y, w0, w1, w2);
    WeightedSum(c.z, w0, w1, w2);
  }

  lemma IdenticalDiffuse(m: Material, w0: real, w1: real, w2: real)
    requires w0 + w1 + w2 == 1.0
    ensures Interpolate(m, m, m, w0, w1, w2).diffColor == m.diffColor
  {
    SameColor(m.diffColor, w0, w1, w2);
  }

  lemma IdenticalAmbient(m: Material, w0: real, w1: real, w2: real)
    requires w0 + w1 + w2 == 1.0
    ensures Interpolate(m, m, m, w0, w1, w2).ambColor == m.ambColor
  {
    SameColor(m.ambColor, w0, w1, w2);
  }

  lemma IdenticalSpecular(m: Material, w0: real, w1: real, w2: real)
    requires w0 + w1 + w2 == 1.0
    ensures Interpolate(m, m, m, w0, w1, w2).specColor == m.specColor
  {
    SameColor(m.specColor, w0, w1, w2);
  }

  lemma IdenticalEmissive(m: Material, w0: real, w1: real, w2: real)
    requires w0 + w1 + w2 == 1.0
    ensures Interpolate(m, m, m, w0, w1, w2).emissColor == m.emissColor
  {
    SameColor(m.emissColor, w0, w1, w2);
  }

  lemma IdenticalShininess(m: Material, w0: real, w1: real, w2: real)
    requires w0 + w1 + w2 == 1.0
    ensures Interpolate(m, m, m, w0, w1, w2).shininess == m.shininess
  {
    WeightedSum(m.shininess, w0, w1, w2);
  }

  lemma IdenticalTransparency(m: Material, w0: real, w1: real, w2: real)
    requires w0 + w1 + w2 == 1.0
    ensures Interpolate(m, m, m, w0, w1, w2).ktran == m.ktran
  {
    WeightedSum(m.ktran, w0, w1, w2);
  }

  /** Interpolating three copies of one material with weights summing to 1 gives that material back. */
  lemma InterpolateIdentical(m: Material, w0: real, w1: real, w2: real)
    requires w0 + w1 + w2 == 1.0
    ensures Interpolate(m, m, m, w0, w1, w2) == m
  {
    IdenticalDiffuse(m, w0, w1, w2);
    IdenticalAmbient(m, w0, w1, w2);
    IdenticalSpecular(m, w0, w1, w2);
    IdenticalEmissive(m, w0, w1, w2);
    IdenticalShininess(m, w0, w1, w2);
    IdenticalTransparency(m, w0, w1, w2);
  }

  /** Information about a ray-surface intersection. */
  datatype HitData = HitData(t: real, position: Vector3, normal: Vector3, material: Material, u: real, v: real)

  /** The documented meaning of `position`: the ray origin advanced t along the ray direction. */
  predicate PositionOnRay(h: HitData, origin: Vector3, direction: Vector3)
  {
    h.position == Add(origin, Scale(direction, h.t))
  }
}
